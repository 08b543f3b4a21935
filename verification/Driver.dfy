/** The swap driver: polls an untrusted server and decides, round by round, whether to post
    pre-signatures, the funding transaction and the encrypted redeem signature.
    A run is any finite sequence of rounds; a round holds every answer the outside gives while
    it lasts (the server's detail, verifier verdicts, replies to posts, clock readings). */
module Driver {
  import opened Wrappers
  import opened Bitcoin
  import opened Presign
  import MoneroKeys
  import Text

  const TERMINAL: set<string> := {"completed", "failed", "refunded", "withheld", "expired"}
  const PRE_FUNDING: set<string> := {"pending", "awaiting_funding", "initializing"}
  const FUND_SETTLE_MS: int := 15_000
  const MAX_ENCSIG_FAILURES: nat := 3
  const PRESIGS_ALREADY_DONE_MAX: nat := 6
  const MAX_FUND_ATTEMPTS: nat := 6

  datatype Keystore = Keystore(b: string, B: string, S_b_monero: string, refundAddress: string)

  /** What is fixed for a whole run, the library calls included: `pointOf` and `bigInt` throw on a text they
      reject; bad hex gives `scalarBytes` no bytes, which the lock check refuses as it does bad hex. */
  datatype Config = Config(
    lib: Lib,
    monero: MoneroKeys.MoneroLib,
    pointOf: string -> Option<MoneroKeys.Point>,
    scalarBytes: string -> Bytes,
    bigInt: string -> Option<int>,
    network: Network,
    keys: Keystore,
    coins: seq<(OutPoint, int)>,
    deadline: int,
    canSave: bool,
    canLoad: bool,
    hasBlockchain: bool
  )

  datatype SwapDetail = SwapDetail(
    status: string,
    action: Option<string>,
    depositAddress: Option<string>,
    depositTxHash: Option<string>,
    hasVerification: bool,
    params: Option<ProtocolParams>
  )

  datatype VerifyAnswer = VerifierThrew | Verdict(verified: bool)
  datatype PresigsAnswer = PresigsAccepted(reply: Option<map<string, Field>>) | PresigsPast | PresigsRefused
  datatype Field = TextField(text: string) | NumberField(number: int) | OtherField
  datatype FundAnswer = FundAccepted | BrokerNotReady | FundRefused
  datatype LockTxAnswer = LockTxThrew | LockTxMissing | LockTxFetched(tx: Tx)

  datatype Round = Round(
    abortedAtHead: bool,
    detail: Option<SwapDetail>,
    clock: int,
    settleClock: int,
    fundClock: int,
    wasmReady: bool,
    verify: VerifyAnswer,
    lockAmount: Option<int>,
    presigs: PresigsAnswer,
    snapshotOnDisk: bool,
    snapshotSaved: bool,
    fund: seq<FundAnswer>,
    moneroTx: Option<MoneroKeys.Fetched>,
    lockTx: LockTxAnswer,
    encsigAccepted: bool,
    sweepDone: bool,
    abortedAtDelay: bool
  )

  datatype State = State(
    lastSigned: Option<Tx>,
    lastFundedAddress: string,
    fundedAt: int,
    verificationEmitted: bool,
    encsigFailures: nat,
    dleqVerified: bool,
    xmrVerified: bool,
    presigsStreak: nat
  )

  const INITIAL := State(None, "", 0, false, 0, false, false, 0)

  /** What the driver did, in order: verdicts it accepted and requests it posted. */
  datatype Event =
    | DleqAccepted(sBitcoin: string, sMonero: string, proof: string)
    | ContractAccepted(round: nat)
    | PostPresigs(lockAddress: string, tx: Tx, sigs: PreSigs, ok: bool)
    | SnapshotPresent(round: nat)
    | SnapshotSaved(round: nat, saved: Recovery)
    | PostFund(params: ProtocolParams, lockAddress: string, amount: Option<int>, tx: Tx, encsigs: Encsigs, ok: bool)
    | XmrAccepted(round: nat, params: ProtocolParams, index: nat, locked: int)
    | PostEncsig(params: ProtocolParams, digest: string, encsig: string, ok: bool)
    | Sweep(sAMonero: string)

  /** What a reply to /presigs holds; the server may name the lock output as well. */
  datatype Encsigs = Encsigs(
    full: Option<string>,
    partial: Option<string>,
    cancelSig: Option<string>,
    lockTxid: Option<string>,
    lockVout: Option<int>,
    lockAmountSats: Option<string>
  )

  /** The recovery snapshot: negotiated parameters, lock output, and the signatures for getting out. */
  datatype Recovery = Recovery(
    params: ProtocolParams,
    lockAddress: string,
    lockTxid: string,
    lockVout: int,
    lockAmountSats: string,
    full: Option<string>,
    partial: Option<string>,
    cancelSig: Option<string>
  )

  datatype Exit =
    | Cancelled | Aborted | ApiFailed
    | Finished(status: string) | TimedOut(status: string) | HandedOver(action: string)
    | DleqIncomplete | DleqInvalid | WasmFailed
    | VerifierFailed | ContractRejected
    | LockKeyInvalid | LockAddressMismatch | FundingFailed | KeysMissing
    | PresignRejected(error: Error) | PresigsWedged | EncsigMissing | SnapshotWriteFailed
    | SAMoneroMissing | XmrLockFailed | XmrCheckThrew
    | NoSignedPsbt | LockTxFetchFailed | DigestFailed(error: Error) | DigestMismatch | EncsigSubmitFailed
    | SweepParamsMissing | SweepDone | SweepFailed

  datatype Control = Again | Stop(exit: Exit)

  /** One round's effect. */
  datatype Turn = Turn(state: State, events: seq<Event>, control: Control)

  predicate CountersBelowCaps(s: State) {
    s.presigsStreak < 6 && s.encsigFailures < 3
  }

  /** A turn that goes on keeps both retry counters below their caps; only the loop head times out. */
  predicate Bounded(s: State, t: Turn) {
    && (CountersBelowCaps(s) && t.control.Again? ==> CountersBelowCaps(t.state))
    && (t.control.Stop? ==> !t.control.exit.TimedOut?)
  }

  function Pause(s: State, events: seq<Event>, r: Round): Turn {
    Turn(s, events, if r.abortedAtDelay then Stop(Aborted) else Again)
  }

  function Halt(s: State, events: seq<Event>, exit: Exit): Turn {
    Turn(s, events, Stop(exit))
  }

  function TextAt(m: map<string, Field>, key: string): Option<string> {
    if key in m && m[key].TextField? then Some(m[key].text) else None
  }

  function NumberAt(m: map<string, Field>, key: string): Option<int> {
    if key in m && m[key].NumberField? then Some(m[key].number) else None
  }

  function ExtractPresigsEncsig(reply: Option<map<string, Field>>): Encsigs {
    if reply.None? then Encsigs(None, None, None, None, None, None)
    else
      var r := reply.value;
      Encsigs(TextAt(r, "txFullRefundEncsig"), TextAt(r, "txPartialRefundEncsig"), TextAt(r, "txCancelSig"),
              TextAt(r, "txLockTxid"), NumberAt(r, "txLockVout"), TextAt(r, "txLockAmountSats"))
  }

  /** The single output of the funding transaction. */
  function AmountOf(tx: Tx): int {
    if tx.outs == [] then 0 else tx.outs[0].value
  }

  /** The server has answered /presigs before: its encsigs are in the parameters. */
  predicate AlreadyHasEncsig(p: ProtocolParams) {
    (Truthy(p.fullRefundEncsig) || Truthy(p.partialRefundEncsig)) && Truthy(p.txRedeemDigest)
  }

  function KnownEncsigs(cfg: Config, p: ProtocolParams, tx: Tx): Encsigs {
    Encsigs(p.fullRefundEncsig, p.partialRefundEncsig, p.txCancelSig,
            Some(cfg.lib.txid(tx)), Some(0), Some(Text.Decimal(AmountOf(tx))))
  }

  /** The server's output index and amount are taken over the client's own, its txid only for want of one. */
  function RecoveryOf(cfg: Config, p: ProtocolParams, lockAddress: string, tx: Tx, e: Encsigs): Recovery {
    var txid := cfg.lib.txid(tx);
    Recovery(p, lockAddress, if txid != "" then txid else OrElse(e.lockTxid, ""), OrElse(e.lockVout, 0),
             OrElse(e.lockAmountSats, Text.Decimal(AmountOf(tx))), e.full, e.partial,
             if e.cancelSig.Some? then e.cancelSig else p.txCancelSig)
  }

  predicate HasRefundEncsig(e: Encsigs) {
    Truthy(e.full) || Truthy(e.partial)
  }

  /** The answers the local /fund retry can come to see: six of them, a missing one counting as refused. */
  function Attempts(answers: seq<FundAnswer>): (r: seq<FundAnswer>)
    ensures 0 < |r| <= MAX_FUND_ATTEMPTS
    ensures |r| < MAX_FUND_ATTEMPTS ==> r[|r| - 1] == FundRefused
  {
    if |answers| >= MAX_FUND_ATTEMPTS then answers[..MAX_FUND_ATTEMPTS] else answers + [FundRefused]
  }

  /** The results of the posts made until one is accepted or refused: true is a success. */
  function FundResults(answers: seq<FundAnswer>): (r: seq<bool>)
    ensures |r| <= |answers| && (answers != [] ==> r != [])
    ensures forall i :: 0 <= i < |r| - 1 ==> !r[i]
  {
    if answers == [] then []
    else if answers[0].BrokerNotReady? then [false] + FundResults(answers[1..])
    else [answers[0].FundAccepted?]
  }

  function FundPosts(answers: seq<FundAnswer>): (r: seq<bool>)
    ensures 0 < |r| <= MAX_FUND_ATTEMPTS
    ensures forall i :: 0 <= i < |r| - 1 ==> !r[i]
  {
    FundResults(Attempts(answers))
  }

  function FundEvents(posts: seq<bool>, p: ProtocolParams, lockAddress: string, amount: Option<int>, tx: Tx, e: Encsigs)
    : (r: seq<Event>)
    ensures |r| == |posts|
    ensures forall i :: 0 <= i < |r| ==> r[i] == PostFund(p, lockAddress, amount, tx, e, posts[i])
  {
    seq(|posts|, i requires 0 <= i < |posts| => PostFund(p, lockAddress, amount, tx, e, posts[i]))
  }

  function PreSigRequest(cfg: Config, tx: Tx, p: ProtocolParams): Request {
    Request(cfg.keys.b, tx, p, cfg.keys.refundAddress, cfg.network, DEFAULT_POLICY)
  }

  /** Phase 4 of funding: the local retry of /fund. */
  function FundTurn(cfg: Config, s: State, ev: seq<Event>, r: Round, p: ProtocolParams, lockAddress: string, tx: Tx,
                    e: Encsigs)
    : (t: Turn)
    ensures Bounded(s, t)
  {
    var posts := FundPosts(r.fund);
    var funded := s.(lastFundedAddress := lockAddress, lastSigned := Some(tx), fundedAt := r.fundClock);
    var s' := if true in posts then funded else s;
    Pause(s', ev + FundEvents(posts, p, lockAddress, r.lockAmount, tx, e), r)
  }

  /** Phase 3: a refund escape hatch and a recovery snapshot, or no funding. */
  function SnapshotTurn(cfg: Config, s: State, k: nat, ev: seq<Event>, r: Round, p: ProtocolParams, lockAddress: string,
                        tx: Tx, e: Encsigs)
    : (t: Turn)
    ensures Bounded(s, t)
  {
    if !HasRefundEncsig(e) then Halt(s, ev, EncsigMissing)
    else if !cfg.canSave then FundTurn(cfg, s, ev, r, p, lockAddress, tx, e)
    else if cfg.canLoad && r.snapshotOnDisk then FundTurn(cfg, s, ev + [SnapshotPresent(k)], r, p, lockAddress, tx, e)
    else if !r.snapshotSaved then Halt(s, ev, SnapshotWriteFailed)
    else FundTurn(cfg, s, ev + [SnapshotSaved(k, RecoveryOf(cfg, p, lockAddress, tx, e))], r, p, lockAddress, tx, e)
  }

  /** Phase 2: post the pre-signatures unless the server already answered them. */
  function PresigsTurn(cfg: Config, s: State, k: nat, ev: seq<Event>, r: Round, p: ProtocolParams, lockAddress: string,
                       tx: Tx, sigs: PreSigs)
    : (t: Turn)
    ensures Bounded(s, t)
  {
    if AlreadyHasEncsig(p) then
      SnapshotTurn(cfg, s.(presigsStreak := 0), k, ev, r, p, lockAddress, tx, KnownEncsigs(cfg, p, tx))
    else
      match r.presigs
      case PresigsAccepted(reply) =>
        SnapshotTurn(cfg, s.(presigsStreak := 0), k, ev + [PostPresigs(lockAddress, tx, sigs, true)], r, p,
                     lockAddress, tx, ExtractPresigsEncsig(reply))
      case PresigsPast =>
        var s' := s.(presigsStreak := s.presigsStreak + 1);
        var ev' := ev + [PostPresigs(lockAddress, tx, sigs, false)];
        if s'.presigsStreak >= PRESIGS_ALREADY_DONE_MAX then Halt(s', ev', PresigsWedged) else Pause(s', ev', r)
      case PresigsRefused => Pause(s, ev + [PostPresigs(lockAddress, tx, sigs, false)], r)
  }

  /** Phase 1: derive the lock address, build and sign the funding transaction, pre-sign the graph. */
  function BuildTurn(cfg: Config, s: State, k: nat, ev: seq<Event>, r: Round, d: SwapDetail, lockAddress: string)
    : (t: Turn)
    ensures Bounded(s, t)
  {
    if d.params.None? then Pause(s, ev, r)
    else
      var p := d.params.value;
      var derived := LockAddress(cfg.lib, p.A, cfg.keys.B, cfg.network);
      if derived.None? then Halt(s, ev, LockKeyInvalid)
      else if derived.value != lockAddress then Halt(s, ev, LockAddressMismatch)
      else
        var tx := FundingTx(cfg.lib, cfg.coins, lockAddress, r.lockAmount, cfg.network);
        if tx.None? then Halt(s, ev, FundingFailed)
        else if cfg.keys.b == "" || cfg.keys.refundAddress == "" then Halt(s, ev, KeysMissing)
        else
          match PreSigsOf(cfg.lib, PreSigRequest(cfg, tx.value, p))
          case Err(e) => Halt(s, ev, PresignRejected(e))
          case Ok(sigs) => PresigsTurn(cfg, s, k, ev, r, p, lockAddress, tx.value, sigs)
  }

  function ContractTurn(cfg: Config, s: State, k: nat, ev: seq<Event>, r: Round, d: SwapDetail, lockAddress: string)
    : (t: Turn)
    ensures Bounded(s, t)
  {
    if s.verificationEmitted || !d.hasVerification then BuildTurn(cfg, s, k, ev, r, d, lockAddress)
    else
      var s' := s.(verificationEmitted := true);
      match r.verify
      case VerifierThrew => Halt(s', ev, VerifierFailed)
      case Verdict(ok) =>
        if !ok then Halt(s', ev, ContractRejected)
        else BuildTurn(cfg, s', k, ev + [ContractAccepted(k)], r, d, lockAddress)
  }

  function DleqTurn(cfg: Config, s: State, k: nat, r: Round, d: SwapDetail, lockAddress: string)
    : (t: Turn)
    ensures Bounded(s, t)
  {
    if s.dleqVerified then ContractTurn(cfg, s, k, [], r, d, lockAddress)
    else if d.params.None? || !Truthy(d.params.value.dleqProof) then Pause(s, [], r)
    else
      var p := d.params.value;
      if !Truthy(p.S_a_monero) || p.S_a_bitcoin == "" then Halt(s, [], DleqIncomplete)
      else if !r.wasmReady then Halt(s, [], WasmFailed)
      else if !cfg.lib.dleqValid(p.S_a_bitcoin, p.S_a_monero.value, p.dleqProof.value) then Halt(s, [], DleqInvalid)
      else
        ContractTurn(cfg, s.(dleqVerified := true), k,
                     [DleqAccepted(p.S_a_bitcoin, p.S_a_monero.value, p.dleqProof.value)],
                     r, d, lockAddress)
  }

  function FundAction(cfg: Config, s: State, k: nat, r: Round, d: SwapDetail)
    : (t: Turn)
    ensures Bounded(s, t)
  {
    var pastFunding := d.status !in PRE_FUNDING;
    var hasPending := Truthy(d.depositAddress) && !pastFunding;
    if pastFunding && !hasPending && s.fundedAt > 0 && r.settleClock - s.fundedAt > FUND_SETTLE_MS then Pause(s, [], r)
    else
      var s' := if hasPending && s.fundedAt > 0 then s.(fundedAt := 0) else s;
      if Truthy(d.depositAddress) && d.depositAddress.value != s.lastFundedAddress then
        DleqTurn(cfg, s', k, r, d, d.depositAddress.value)
      else Pause(s', [], r)
  }

  predicate HasXmrVerification(p: ProtocolParams) {
    Truthy(p.moneroTxHash) && Truthy(p.moneroLockAddress) && Truthy(p.xmrAmountPico)
  }

  /** What the lock check is given, or None where preparing it throws. */
  function LockParamsOf(cfg: Config, p: ProtocolParams): Option<MoneroKeys.LockParams>
    requires HasXmrVerification(p) && Truthy(p.S_a_monero)
  {
    var sA, sB := cfg.pointOf(p.S_a_monero.value), cfg.pointOf(cfg.keys.S_b_monero);
    var expected := cfg.bigInt(p.xmrAmountPico.value);
    if sA.None? || sB.None? || expected.None? then None
    else
      var combined := cfg.monero.decode(cfg.monero.encode(MoneroKeys.Add(sA.value, sB.value)));
      var txKey := if Truthy(p.moneroTxKey) then Some(cfg.scalarBytes(p.moneroTxKey.value)) else None;
      Some(MoneroKeys.LockParams(cfg.scalarBytes(OrElse(p.combinedViewKey, "")), combined, expected.value, txKey))
  }

  /** The verdict on the Monero lock of a round. */
  function LockVerdict(cfg: Config, r: Round, p: ProtocolParams): MoneroKeys.LockAnswer
    requires HasXmrVerification(p) && Truthy(p.S_a_monero)
  {
    var params := LockParamsOf(cfg, p);
    if params.None? then MoneroKeys.Threw else MoneroKeys.Judge(cfg.monero, r.moneroTx, params.value)
  }

  /** Post the encrypted signature over the digest computed here. */
  function ReleaseTurn(cfg: Config, s: State, ev: seq<Event>, r: Round, p: ProtocolParams, digest: string)
    : (t: Turn)
    ensures Bounded(s, t)
  {
    if Truthy(p.txRedeemDigest) && digest != p.txRedeemDigest.value then Halt(s, ev, DigestMismatch)
    else
      var ev' := ev + [PostEncsig(p, digest, cfg.lib.encsign(cfg.keys.b, p.S_a_bitcoin, digest), r.encsigAccepted)];
      if r.encsigAccepted then Pause(s.(encsigFailures := 0), ev', r)
      else
        var s' := s.(encsigFailures := s.encsigFailures + 1);
        if s'.encsigFailures >= MAX_ENCSIG_FAILURES then Halt(s', ev', EncsigSubmitFailed) else Pause(s', ev', r)
  }

  function DigestOn(cfg: Config, tx: Tx, p: ProtocolParams): Result<string, Error> {
    RedeemDigest(cfg.lib, tx, p, cfg.keys.B, cfg.network)
  }

  function DigestTurn(cfg: Config, s: State, ev: seq<Event>, r: Round, d: SwapDetail, p: ProtocolParams)
    : (t: Turn)
    ensures Bounded(s, t)
  {
    if s.lastSigned.Some? then
      match DigestOn(cfg, s.lastSigned.value, p)
      case Err(e) => Halt(s, ev, DigestFailed(e))
      case Ok(digest) => ReleaseTurn(cfg, s, ev, r, p, digest)
    else if !cfg.hasBlockchain then Halt(s, ev, NoSignedPsbt)
    else if !Truthy(d.depositTxHash) then Pause(s, ev, r)
    else
      match r.lockTx
      case LockTxThrew => Halt(s, ev, LockTxFetchFailed)
      case LockTxMissing => Pause(s, ev, r)
      case LockTxFetched(tx) =>
        match DigestOn(cfg, tx, p)
        case Err(e) => Halt(s, ev, DigestFailed(e))
        case Ok(digest) => ReleaseTurn(cfg, s, ev, r, p, digest)
  }

  function EncsigAction(cfg: Config, s: State, k: nat, r: Round, d: SwapDetail)
    : (t: Turn)
    ensures Bounded(s, t)
  {
    if d.params.None? then Pause(s, [], r)
    else
      var p := d.params.value;
      if s.xmrVerified then DigestTurn(cfg, s, [], r, d, p)
      else if !HasXmrVerification(p) then Pause(s, [], r)
      else if !Truthy(p.S_a_monero) || cfg.keys.S_b_monero == "" then Halt(s, [], SAMoneroMissing)
      else
        match LockVerdict(cfg, r, p)
        case Threw => Halt(s, [], XmrCheckThrew)
        case Rejected(_, retryable) => if retryable then Pause(s, [], r) else Halt(s, [], XmrLockFailed)
        case Verified(index, amount) =>
          DigestTurn(cfg, s.(xmrVerified := true), [XmrAccepted(k, p, index, amount)], r, d, p)
  }

  function SweepAction(s: State, r: Round, d: SwapDetail)
    : (t: Turn)
    ensures Bounded(s, t)
  {
    if d.params.None? || !Truthy(d.params.value.S_a_monero) then Halt(s, [], SweepParamsMissing)
    else Halt(s, [Sweep(d.params.value.S_a_monero.value)], if r.sweepDone then SweepDone else SweepFailed)
  }

  /** Round k of a run. */
  function RoundTurn(cfg: Config, s: State, k: nat, r: Round): Turn {
    if r.abortedAtHead then Halt(s, [], Cancelled)
    else if r.detail.None? then Halt(s, [], ApiFailed)
    else
      var d := r.detail.value;
      if d.status in TERMINAL then Halt(s, [], Finished(d.status))
      else if r.clock >= cfg.deadline && d.status in PRE_FUNDING then Halt(s, [], TimedOut(d.status))
      else if d.action == Some("fund") then FundAction(cfg, s, k, r, d)
      else if d.action == Some("submit_encsig") then EncsigAction(cfg, s, k, r, d)
      else if d.action == Some("sweep") || d.status == "sending" then SweepAction(s, r, d)
      else if d.action == Some("cancel") || d.action == Some("refund") then Halt(s, [], HandedOver(d.action.value))
      else Pause(s, [], r)
  }

  /** A run after its first n rounds: the loop variables, everything done so far, and whether the
      loop is still going. */
  function Run(cfg: Config, rounds: seq<Round>, n: nat): Turn
    requires n <= |rounds|
  {
    if n == 0 then Turn(INITIAL, [], Again)
    else
      var before := Run(cfg, rounds, n - 1);
      if before.control.Stop? then before
      else
        var t := RoundTurn(cfg, before.state, n - 1, rounds[n - 1]);
        Turn(t.state, before.events + t.events, t.control)
  }
}
