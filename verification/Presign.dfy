/** The pre-signed transaction graph: which server parameters `computePreSigs` accepts, and
    the templates it signs. */
module Presign {
  import opened Wrappers
  import opened Bitcoin

  const VBYTES_SINGLE: int := 154
  const VBYTES_TWO_OUT: int := 187

  /** What the server says Alice negotiated. Absent and null fields are both None. */
  datatype ProtocolParams = ProtocolParams(
    A: string,
    S_a_bitcoin: string,
    cancelTimelock: int,
    punishTimelock: int,
    redeemAddress: string,
    punishAddress: string,
    cancelFee: int,
    refundFee: int,
    redeemFee: int,
    punishFee: int,
    amnesty: Option<int>,
    remainingRefundTimelock: Option<int>,
    partialRefundFee: Option<int>,
    reclaimFee: Option<int>,
    withholdFee: Option<int>,
    mercyFee: Option<int>,
    S_a_monero: Option<string>,
    dleqProof: Option<string>,
    moneroLockAddress: Option<string>,
    xmrAmountPico: Option<string>,
    moneroTxHash: Option<string>,
    fullRefundEncsig: Option<string>,
    partialRefundEncsig: Option<string>,
    txCancelSig: Option<string>,
    txRedeemDigest: Option<string>,
    moneroTxKey: Option<string>,
    combinedViewKey: Option<string>
  )

  datatype Policy = Policy(
    minRelaySatsPerVbyte: int,
    maxSatsPerVbyte: int,
    maxRatioBps: int,
    p2wpkhDust: int,
    p2wshDust: int
  )

  const DEFAULT_POLICY := Policy(1, 500, 2000, 294, 330)

  datatype Error =
    | TimelockOutOfRange
    | FeeBelowRelay
    | FeeAboveCap
    | OutputDust
    | AmnestyNegative
    | AmnestyExceedsCap
    | BadPrivateKey
    | BadPublicKey
    | NoMultisigOutput
    | BadAddress

  /** Everything `computePreSigs` is given. The signed PSBT is the lock transaction in it. */
  datatype Request = Request(
    bHex: string,
    txLock: Tx,
    params: ProtocolParams,
    refundAddress: string,
    network: Network,
    policy: Policy
  )

  function RequireTimelock(value: int, min: int, max: int): Check<Error> {
    Require(min <= value <= max, TimelockOutOfRange)
  }

  function RequireFee(fee: int, vbytes: int, policy: Policy): Check<Error> {
    if fee < policy.minRelaySatsPerVbyte * vbytes then Fail(FeeBelowRelay)
    else if fee > policy.maxSatsPerVbyte * vbytes then Fail(FeeAboveCap)
    else Pass
  }

  function RequireAboveDust(value: int, floor: int): Check<Error> {
    Require(value >= floor, OutputDust)
  }

  predicate FeeInBounds(fee: int, vbytes: int, policy: Policy) {
    policy.minRelaySatsPerVbyte * vbytes <= fee <= policy.maxSatsPerVbyte * vbytes
  }

  function ToOutputScript(lib: Lib, address: string, network: Network): Result<Bytes, Error> {
    var s := lib.outputScript(address, network);
    if s.None? then Err(BadAddress) else Ok(s.value)
  }

  /** A version-2 transaction with one input and the given outputs. */
  function Spend(prev: OutPoint, sequence: nat, outs: seq<TxOut>): Tx {
    Tx(2, 0, [TxIn(prev, sequence)], outs)
  }

  /** The lock output the templates spend, and the script that guards it. */
  datatype Lock = Lock(txid: string, vout: nat, value: int, script: Bytes, p2wsh: Bytes)

  datatype Templates = Templates(
    lock: Lock,
    cancel: Tx,
    punish: Tx,
    earlyRefund: Tx,
    amnesty: Option<Amnesty>
  )

  datatype Amnesty = Amnesty(partialRefund: Tx, reclaim: Tx, withhold: Tx, mercy: Tx)

  datatype AmnestySigs = AmnestySigs(reclaim: string, withhold: string, mercy: string)

  datatype PreSigs = PreSigs(cancel: string, punish: string, earlyRefund: string, amnesty: Option<AmnestySigs>)

  function AmnestyAmount(p: ProtocolParams): int {
    OrElse(p.amnesty, 0)
  }

  predicate NonZero(x: Option<int>) {
    x.Some? && x.value != 0
  }

  /** The branch guard: a positive amnesty and every amnesty parameter present and non-zero. */
  predicate HasAmnesty(p: ProtocolParams) {
    && AmnestyAmount(p) > 0
    && NonZero(p.partialRefundFee) && NonZero(p.reclaimFee) && NonZero(p.withholdFee)
    && NonZero(p.mercyFee) && NonZero(p.remainingRefundTimelock)
  }

  function CancelValue(lockValue: int, p: ProtocolParams): int { lockValue - p.cancelFee }

  function PartialRefundValue(lockValue: int, p: ProtocolParams): int
    requires HasAmnesty(p)
  {
    CancelValue(lockValue, p) - AmnestyAmount(p) - p.partialRefundFee.value
  }

  function WithholdValue(p: ProtocolParams): int
    requires HasAmnesty(p)
  {
    AmnestyAmount(p) - p.withholdFee.value
  }

  function CheckTimelocks(p: ProtocolParams): Check<Error> {
    if RequireTimelock(p.cancelTimelock, 5, 288).Fail? then Fail(TimelockOutOfRange)
    else if RequireTimelock(p.punishTimelock, 5, 288).Fail? then Fail(TimelockOutOfRange)
    else if p.remainingRefundTimelock.Some? then RequireTimelock(p.remainingRefundTimelock.value, 1, 288)
    else Pass
  }

  /** The lock output a given B key finds in a lock transaction. */
  function LocateLock(lib: Lib, tx: Tx, aHex: string, bHex: string): Result<Lock, Error> {
    var script := MultisigScript(lib, aHex, bHex);
    if script.None? then Err(BadPublicKey)
    else
      var p2wsh := P2wsh(lib, script.value);
      var vout := FindOutput(tx.outs, p2wsh);
      if vout.None? then Err(NoMultisigOutput)
      else Ok(Lock(lib.txid(tx), vout.value, tx.outs[vout.value].value, script.value, p2wsh))
  }

  function CheckAmnestyCap(amnesty: int, lockValue: int, policy: Policy): Check<Error> {
    if amnesty < 0 then Fail(AmnestyNegative)
    else Require(amnesty * 10_000 <= lockValue * policy.maxRatioBps, AmnestyExceedsCap)
  }

  function CancelTx(lock: Lock, p: ProtocolParams): Tx
    requires p.cancelTimelock >= 0
  {
    Spend(OutPoint(lock.txid, lock.vout), p.cancelTimelock, [TxOut(lock.p2wsh, CancelValue(lock.value, p))])
  }

  function AmnestyTemplates(lib: Lib, rq: Request, lock: Lock, cancel: Tx): Result<Amnesty, Error>
    requires HasAmnesty(rq.params) && CheckTimelocks(rq.params).Pass?
  {
    var p, pol, net := rq.params, rq.policy, rq.network;
    var amnesty := AmnestyAmount(p);
    :- RequireFee(p.partialRefundFee.value, VBYTES_TWO_OUT, pol);
    :- RequireAboveDust(PartialRefundValue(lock.value, p), pol.p2wpkhDust);
    :- RequireAboveDust(amnesty, pol.p2wshDust);
    var refundScript :- ToOutputScript(lib, rq.refundAddress, net);
    var partial := Spend(OutPoint(lib.txid(cancel), 0), SEQUENCE_FINAL,
                         [TxOut(refundScript, PartialRefundValue(lock.value, p)), TxOut(lock.p2wsh, amnesty)]);
    var amnestyOut := OutPoint(lib.txid(partial), 1);
    :- RequireFee(p.reclaimFee.value, VBYTES_SINGLE, pol);
    :- RequireAboveDust(amnesty - p.reclaimFee.value, pol.p2wpkhDust);
    var reclaim := Spend(amnestyOut, p.remainingRefundTimelock.value,
                         [TxOut(refundScript, amnesty - p.reclaimFee.value)]);
    :- RequireFee(p.withholdFee.value, VBYTES_SINGLE, pol);
    :- RequireAboveDust(WithholdValue(p), pol.p2wshDust);
    var withhold := Spend(amnestyOut, SEQUENCE_FINAL, [TxOut(lock.p2wsh, WithholdValue(p))]);
    :- RequireFee(p.mercyFee.value, VBYTES_SINGLE, pol);
    :- RequireAboveDust(WithholdValue(p) - p.mercyFee.value, pol.p2wpkhDust);
    var mercy := Spend(OutPoint(lib.txid(withhold), 0), SEQUENCE_FINAL,
                       [TxOut(refundScript, WithholdValue(p) - p.mercyFee.value)]);
    Ok(Amnesty(partial, reclaim, withhold, mercy))
  }

  /** The templates, in the order the code checks and builds them. */
  function BuildTemplates(lib: Lib, rq: Request): Result<Templates, Error> {
    var p, pol := rq.params, rq.policy;
    :- CheckTimelocks(p);
    var bPub := lib.publicKey(rq.bHex);
    if bPub.None? then Err(BadPrivateKey)
    else
      var lock :- LocateLock(lib, rq.txLock, p.A, bPub.value);
      :- CheckAmnestyCap(AmnestyAmount(p), lock.value, pol);
      var lockOut := OutPoint(lock.txid, lock.vout);
      :- RequireFee(p.cancelFee, VBYTES_SINGLE, pol);
      :- RequireAboveDust(CancelValue(lock.value, p), pol.p2wshDust);
      var cancel := CancelTx(lock, p);
      :- RequireFee(p.punishFee, VBYTES_SINGLE, pol);
      var punishValue := CancelValue(lock.value, p) - p.punishFee;
      :- RequireAboveDust(punishValue, pol.p2wpkhDust);
      var punishScript :- ToOutputScript(lib, p.punishAddress, rq.network);
      var punish := Spend(OutPoint(lib.txid(cancel), 0), p.punishTimelock, [TxOut(punishScript, punishValue)]);
      :- RequireFee(p.refundFee, VBYTES_SINGLE, pol);
      :- RequireAboveDust(lock.value - p.refundFee, pol.p2wpkhDust);
      var refundScript :- ToOutputScript(lib, rq.refundAddress, rq.network);
      var early := Spend(lockOut, SEQUENCE_FINAL, [TxOut(refundScript, lock.value - p.refundFee)]);
      if HasAmnesty(p) then
        var a :- AmnestyTemplates(lib, rq, lock, cancel);
        Ok(Templates(lock, cancel, punish, early, Some(a)))
      else
        Ok(Templates(lock, cancel, punish, early, None))
  }

  /** Bob's signature on input 0 of a template that spends `value` from a 2-of-2 output. */
  function SignInput(lib: Lib, bHex: string, tx: Tx, script: Bytes, value: int): string {
    lib.sign(bHex, lib.sighash(tx, 0, script, value))
  }

  function SignTemplates(lib: Lib, rq: Request, t: Templates): PreSigs
    requires t.amnesty.Some? ==> HasAmnesty(rq.params)
  {
    var script, cancelValue := t.lock.script, CancelValue(t.lock.value, rq.params);
    PreSigs(
      SignInput(lib, rq.bHex, t.cancel, script, t.lock.value),
      SignInput(lib, rq.bHex, t.punish, script, cancelValue),
      SignInput(lib, rq.bHex, t.earlyRefund, script, t.lock.value),
      if t.amnesty.None? then None
      else
        var amnesty := AmnestyAmount(rq.params);
        Some(AmnestySigs(
               SignInput(lib, rq.bHex, t.amnesty.value.reclaim, script, amnesty),
               SignInput(lib, rq.bHex, t.amnesty.value.withhold, script, amnesty),
               SignInput(lib, rq.bHex, t.amnesty.value.mercy, script, WithholdValue(rq.params)))))
  }

  function PreSigsOf(lib: Lib, rq: Request): Result<PreSigs, Error> {
    var t :- BuildTemplates(lib, rq);
    Ok(SignTemplates(lib, rq, t))
  }

  /** Every condition the code tests, free of the order in which it tests them. */
  predicate Acceptable(lib: Lib, rq: Request) {
    var p, pol := rq.params, rq.policy;
    && 5 <= p.cancelTimelock <= 288
    && 5 <= p.punishTimelock <= 288
    && (p.remainingRefundTimelock.Some? ==> 1 <= p.remainingRefundTimelock.value <= 288)
    && lib.publicKey(rq.bHex).Some?
    && lib.outputScript(p.punishAddress, rq.network).Some?
    && lib.outputScript(rq.refundAddress, rq.network).Some?
    && var lock := LocateLock(lib, rq.txLock, p.A, lib.publicKey(rq.bHex).value);
    && lock.Ok?
    && AcceptableValues(lock.value.value, p, pol)
  }

  /** The value bounds: fees inside the policy band, outputs above dust, amnesty capped. */
  predicate AcceptableValues(lockValue: int, p: ProtocolParams, pol: Policy) {
    && 0 <= AmnestyAmount(p)
    && AmnestyAmount(p) * 10_000 <= lockValue * pol.maxRatioBps
    && FeeInBounds(p.cancelFee, VBYTES_SINGLE, pol)
    && FeeInBounds(p.punishFee, VBYTES_SINGLE, pol)
    && FeeInBounds(p.refundFee, VBYTES_SINGLE, pol)
    && CancelValue(lockValue, p) >= pol.p2wshDust
    && CancelValue(lockValue, p) - p.punishFee >= pol.p2wpkhDust
    && lockValue - p.refundFee >= pol.p2wpkhDust
    && (HasAmnesty(p) ==> AcceptableAmnesty(lockValue, p, pol))
  }

  predicate AcceptableAmnesty(lockValue: int, p: ProtocolParams, pol: Policy)
    requires HasAmnesty(p)
  {
    && FeeInBounds(p.partialRefundFee.value, VBYTES_TWO_OUT, pol)
    && FeeInBounds(p.reclaimFee.value, VBYTES_SINGLE, pol)
    && FeeInBounds(p.withholdFee.value, VBYTES_SINGLE, pol)
    && FeeInBounds(p.mercyFee.value, VBYTES_SINGLE, pol)
    && PartialRefundValue(lockValue, p) >= pol.p2wpkhDust
    && AmnestyAmount(p) >= pol.p2wshDust
    && AmnestyAmount(p) - p.reclaimFee.value >= pol.p2wpkhDust
    && WithholdValue(p) >= pol.p2wshDust
    && WithholdValue(p) - p.mercyFee.value >= pol.p2wpkhDust
  }

  /** The default bounds in satoshis: fees of one to five hundred a virtual byte, of 154 for a transaction with
      one output and 187 with two, outputs of at least 294 or, to the 2-of-2, 330, and an amnesty of at most a
      fifth of the lock. */
  lemma DefaultBounds(lockValue: int, p: ProtocolParams)
    ensures AcceptableValues(lockValue, p, DEFAULT_POLICY) <==>
      var amnesty := if p.amnesty.Some? then p.amnesty.value else 0;
      var cancelled := lockValue - p.cancelFee;
      && 0 <= 5 * amnesty <= lockValue
      && 154 <= p.cancelFee <= 77_000 && 154 <= p.punishFee <= 77_000 && 154 <= p.refundFee <= 77_000
      && cancelled >= 330 && cancelled - p.punishFee >= 294 && lockValue - p.refundFee >= 294
      && (HasAmnesty(p) ==>
            && 187 <= p.partialRefundFee.value <= 93_500
            && 154 <= p.reclaimFee.value <= 77_000 && 154 <= p.withholdFee.value <= 77_000
            && 154 <= p.mercyFee.value <= 77_000
            && cancelled - amnesty - p.partialRefundFee.value >= 294
            && amnesty >= 330 && amnesty - p.reclaimFee.value >= 294
            && amnesty - p.withholdFee.value >= 330 && amnesty - p.withholdFee.value - p.mercyFee.value >= 294)
  {
  }

  /** `computePreSigs` signs exactly when every bound holds. */
  lemma AcceptsExactly(lib: Lib, rq: Request)
    ensures PreSigsOf(lib, rq).Ok? <==> Acceptable(lib, rq)
    ensures PreSigsOf(lib, rq).Ok? <==> BuildTemplates(lib, rq).Ok?
  {
    var p := rq.params;
    if CheckTimelocks(p).Pass? && lib.publicKey(rq.bHex).Some? {
      var lock := LocateLock(lib, rq.txLock, p.A, lib.publicKey(rq.bHex).value);
      if lock.Ok? && HasAmnesty(p) {
        AmnestyAcceptsExactly(lib, rq, lock.value, CancelTx(lock.value, p));
      }
    }
  }

  lemma AmnestyAcceptsExactly(lib: Lib, rq: Request, lock: Lock, cancel: Tx)
    requires HasAmnesty(rq.params) && CheckTimelocks(rq.params).Pass?
    ensures AmnestyTemplates(lib, rq, lock, cancel).Ok?
       <==> AcceptableAmnesty(lock.value, rq.params, rq.policy) && lib.outputScript(rq.refundAddress, rq.network).Some?
  {
    var r := AmnestyTemplates(lib, rq, lock, cancel);
  }

  /** The code's own steps: guards that throw, transaction objects filled input by input. */
  method ComputePreSigs(lib: Lib, rq: Request) returns (r: Result<PreSigs, Error>)
    ensures r == PreSigsOf(lib, rq)
  {
    hide AmnestyTemplates, LocateLock;
    var p, pol, net := rq.params, rq.policy, rq.network;
    if !(5 <= p.cancelTimelock <= 288) { return Err(TimelockOutOfRange); }
    if !(5 <= p.punishTimelock <= 288) { return Err(TimelockOutOfRange); }
    if p.remainingRefundTimelock.Some? && !(1 <= p.remainingRefundTimelock.value <= 288) {
      return Err(TimelockOutOfRange);
    }
    var bPub := lib.publicKey(rq.bHex);
    if bPub.None? { return Err(BadPrivateKey); }
    var lock :- FindLock(lib, rq.txLock, p.A, bPub.value);
    var lockOut, lockValue := OutPoint(lock.txid, lock.vout), lock.value;

    var amnesty := OrElse(p.amnesty, 0);
    if amnesty < 0 { return Err(AmnestyNegative); }
    if amnesty * 10_000 > lockValue * pol.maxRatioBps { return Err(AmnestyExceedsCap); }

    :- RequireFee(p.cancelFee, VBYTES_SINGLE, pol);
    var cancelValue := lockValue - p.cancelFee;
    :- RequireAboveDust(cancelValue, pol.p2wshDust);
    var cancel := FillTransaction(lockOut, p.cancelTimelock, [TxOut(lock.p2wsh, cancelValue)]);
    var cancelSig := lib.sign(rq.bHex, lib.sighash(cancel, 0, lock.script, lockValue));

    :- RequireFee(p.punishFee, VBYTES_SINGLE, pol);
    var punishValue := cancelValue - p.punishFee;
    :- RequireAboveDust(punishValue, pol.p2wpkhDust);
    var punish :- BuildSpendTx(lib, OutPoint(lib.txid(cancel), 0), p.punishTimelock, p.punishAddress, punishValue, net);
    var punishSig := lib.sign(rq.bHex, lib.sighash(punish, 0, lock.script, cancelValue));

    :- RequireFee(p.refundFee, VBYTES_SINGLE, pol);
    var earlyValue := lockValue - p.refundFee;
    :- RequireAboveDust(earlyValue, pol.p2wpkhDust);
    var early :- BuildSpendTx(lib, lockOut, SEQUENCE_FINAL, rq.refundAddress, earlyValue, net);
    var earlySig := lib.sign(rq.bHex, lib.sighash(early, 0, lock.script, lockValue));

    if !HasAmnesty(p) {
      return Ok(PreSigs(cancelSig, punishSig, earlySig, None));
    }
    var sigs :- SignAmnesty(lib, rq, lock, cancel);
    return Ok(PreSigs(cancelSig, punishSig, earlySig, Some(sigs)));
  }

  /** The 2-of-2 output of the lock transaction. */
  method FindLock(lib: Lib, tx: Tx, aHex: string, bHex: string) returns (r: Result<Lock, Error>)
    ensures r == LocateLock(lib, tx, aHex, bHex)
  {
    var script := MultisigScript(lib, aHex, bHex);
    if script.None? { return Err(BadPublicKey); }
    var p2wsh := P2wsh(lib, script.value);
    var vout := FindMultisigOutput(tx.outs, p2wsh);
    if vout.None? { return Err(NoMultisigOutput); }
    return Ok(Lock(lib.txid(tx), vout.value, tx.outs[vout.value].value, script.value, p2wsh));
  }

  /** A fresh transaction object, given its version, its input and its outputs in turn. */
  method FillTransaction(prev: OutPoint, sequence: nat, outs: seq<TxOut>) returns (r: Tx)
    ensures r == Spend(prev, sequence, outs)
  {
    var tx := new Transaction();
    tx.version := 2;
    tx.AddInput(prev, sequence);
    for i := 0 to |outs|
      invariant tx.version == 2 && tx.locktime == 0
      invariant tx.ins == [TxIn(prev, sequence)]
      invariant tx.outs == outs[..i]
    {
      tx.AddOutput(outs[i].script, outs[i].value);
    }
    return tx.Value();
  }

  method BuildSpendTx(lib: Lib, prev: OutPoint, sequence: nat, address: string, value: int, network: Network)
    returns (r: Result<Tx, Error>)
    ensures lib.outputScript(address, network).None? ==> r == Err(BadAddress)
    ensures lib.outputScript(address, network).Some?
        ==> r == Ok(Spend(prev, sequence, [TxOut(lib.outputScript(address, network).value, value)]))
  {
    var script :- ToOutputScript(lib, address, network);
    var tx := FillTransaction(prev, sequence, [TxOut(script, value)]);
    return Ok(tx);
  }

  method SignAmnesty(lib: Lib, rq: Request, lock: Lock, cancel: Tx) returns (r: Result<AmnestySigs, Error>)
    requires HasAmnesty(rq.params) && CheckTimelocks(rq.params).Pass?
    ensures match AmnestyTemplates(lib, rq, lock, cancel)
            case Err(e) => r == Err(e)
            case Ok(a) =>
              var amnesty := AmnestyAmount(rq.params);
              r == Ok(AmnestySigs(
                        SignInput(lib, rq.bHex, a.reclaim, lock.script, amnesty),
                        SignInput(lib, rq.bHex, a.withhold, lock.script, amnesty),
                        SignInput(lib, rq.bHex, a.mercy, lock.script, WithholdValue(rq.params))))
  {
    var p, pol, net := rq.params, rq.policy, rq.network;
    var amnesty := p.amnesty.value;
    :- RequireFee(p.partialRefundFee.value, VBYTES_TWO_OUT, pol);
    var refundValue := lock.value - p.cancelFee - amnesty - p.partialRefundFee.value;
    :- RequireAboveDust(refundValue, pol.p2wpkhDust);
    :- RequireAboveDust(amnesty, pol.p2wshDust);
    var refundScript :- ToOutputScript(lib, rq.refundAddress, net);
    var partial := FillTransaction(OutPoint(lib.txid(cancel), 0), SEQUENCE_FINAL,
                                   [TxOut(refundScript, refundValue), TxOut(lock.p2wsh, amnesty)]);
    var amnestyOut := OutPoint(lib.txid(partial), 1);

    :- RequireFee(p.reclaimFee.value, VBYTES_SINGLE, pol);
    :- RequireAboveDust(amnesty - p.reclaimFee.value, pol.p2wpkhDust);
    var reclaim := BuildSpendTx(lib, amnestyOut, p.remainingRefundTimelock.value, rq.refundAddress,
                                amnesty - p.reclaimFee.value, net);
    var reclaimSig := lib.sign(rq.bHex, lib.sighash(reclaim.value, 0, lock.script, amnesty));

    :- RequireFee(p.withholdFee.value, VBYTES_SINGLE, pol);
    var withholdValue := amnesty - p.withholdFee.value;
    :- RequireAboveDust(withholdValue, pol.p2wshDust);
    var withhold := FillTransaction(amnestyOut, SEQUENCE_FINAL, [TxOut(lock.p2wsh, withholdValue)]);
    var withholdSig := lib.sign(rq.bHex, lib.sighash(withhold, 0, lock.script, amnesty));

    :- RequireFee(p.mercyFee.value, VBYTES_SINGLE, pol);
    :- RequireAboveDust(withholdValue - p.mercyFee.value, pol.p2wpkhDust);
    var mercy := BuildSpendTx(lib, OutPoint(lib.txid(withhold), 0), SEQUENCE_FINAL, rq.refundAddress,
                              withholdValue - p.mercyFee.value, net);
    var mercySig := lib.sign(rq.bHex, lib.sighash(mercy.value, 0, lock.script, withholdValue));
    return Ok(AmnestySigs(reclaimSig, withholdSig, mercySig));
  }

  /** The redeem template and digest `computeRedeemDigestFromTxLock` builds for a lock transaction. */
  function RedeemTemplate(lib: Lib, txLock: Tx, p: ProtocolParams, bHex: string, network: Network, pol: Policy)
    : Result<(Lock, Tx), Error>
  {
    var lock :- LocateLock(lib, txLock, p.A, bHex);
    :- RequireFee(p.redeemFee, VBYTES_SINGLE, pol);
    :- RequireAboveDust(lock.value - p.redeemFee, pol.p2wpkhDust);
    var script :- ToOutputScript(lib, p.redeemAddress, network);
    Ok((lock, Spend(OutPoint(lock.txid, lock.vout), SEQUENCE_FINAL, [TxOut(script, lock.value - p.redeemFee)])))
  }

  function RedeemDigest(lib: Lib, txLock: Tx, p: ProtocolParams, bHex: string, network: Network)
    : Result<string, Error>
  {
    var t :- RedeemTemplate(lib, txLock, p, bHex, network, DEFAULT_POLICY);
    Ok(lib.sighash(t.1, 0, t.0.script, t.0.value))
  }

  /** The funding transaction: every wallet coin in, one output paying the lock address. */
  function FundingTx(lib: Lib, coins: seq<(OutPoint, int)>, lockAddress: string, amount: Option<int>, network: Network)
    : Option<Tx>
  {
    if coins == [] then None
    else
      var script := lib.outputScript(lockAddress, network);
      if script.None? then None
      else
        var value := if amount.Some? && amount.value > 0 then amount.value else TotalValue(coins);
        var ins := seq(|coins|, i requires 0 <= i < |coins| => TxIn(coins[i].0, SEQUENCE_FINAL));
        Some(Tx(2, 0, ins, [TxOut(script.value, value)]))
  }

  function TotalValue(coins: seq<(OutPoint, int)>): int {
    if coins == [] then 0 else coins[0].1 + TotalValue(coins[1..])
  }

  /** What the funding transaction is: version 2, every coin of the wallet spent once and in order, without a
      relative lock, and one output to the lock address, of the amount asked for or else of all coins. */
  lemma FundingSpendsWallet(lib: Lib, coins: seq<(OutPoint, int)>, lockAddress: string, amount: Option<int>,
                            network: Network)
    ensures var tx := FundingTx(lib, coins, lockAddress, amount, network);
      && (tx.Some? <==> coins != [] && lib.outputScript(lockAddress, network).Some?)
      && (tx.Some? ==>
            && tx.value.version == 2 && tx.value.locktime == 0 && |tx.value.ins| == |coins|
            && (forall i :: 0 <= i < |coins| ==> tx.value.ins[i] == TxIn(coins[i].0, 0xffff_ffff))
            && |tx.value.outs| == 1 && Some(tx.value.outs[0].script) == lib.outputScript(lockAddress, network)
            && (amount.Some? && amount.value > 0 ==> tx.value.outs[0].value == amount.value)
            && (amount.None? || amount.value <= 0 ==> tx.value.outs[0].value == TotalValue(coins)))
  {
  }

  lemma {:induction false} TotalValueAdds(a: seq<(OutPoint, int)>, b: seq<(OutPoint, int)>)
    ensures TotalValue(a + b) == TotalValue(a) + TotalValue(b)
    ensures forall c :: TotalValue([c]) == c.1
  {
    forall c: (OutPoint, int) ensures TotalValue([c]) == c.1 {
      assert [c][1..] == [];
    }
    if a == [] {
      assert a + b == b;
    } else {
      TotalValueAdds(a[1..], b);
      assert (a + b)[1..] == a[1..] + b;
    }
  }

  /** TxRedeem of a lock transaction: version 2, spending the first output that pays the 2-of-2 of (A, B), with
      no relative lock, and paying Alice's redeem address the lock less the fee. */
  predicate IsRedeemTx(lib: Lib, txLock: Tx, vout: nat, p: ProtocolParams, network: Network, tx: Tx) {
    && vout < |txLock.outs|
    && tx.version == 2 && tx.locktime == 0
    && tx.ins == [TxIn(OutPoint(lib.txid(txLock), vout), 0xffff_ffff)]
    && |tx.outs| == 1 && Some(tx.outs[0].script) == lib.outputScript(p.redeemAddress, network)
    && tx.outs[0].value == txLock.outs[vout].value - p.redeemFee
  }

  /** The digest is the hash for input 0 of TxRedeem, over the script and the value of the lock output. */
  predicate IsRedeemDigest(lib: Lib, txLock: Tx, p: ProtocolParams, bHex: string, network: Network, digest: string) {
    var script, pay := MultisigScript(lib, p.A, bHex), lib.outputScript(p.redeemAddress, network);
    && script.Some? && pay.Some?
    && var vout := FindOutput(txLock.outs, P2wsh(lib, script.value));
    && vout.Some?
    && var value := txLock.outs[vout.value].value;
    && 154 <= p.redeemFee <= 77_000 && value - p.redeemFee >= 294
    && var txRedeem := Tx(2, 0, [TxIn(OutPoint(lib.txid(txLock), vout.value), 0xffff_ffff)],
                          [TxOut(pay.value, value - p.redeemFee)]);
    && digest == lib.sighash(txRedeem, 0, script.value, value)
  }

  /** The digest computed is exactly that one, and there is one exactly when the fee is within its bounds. */
  lemma RedeemDigestIsExact(lib: Lib, txLock: Tx, p: ProtocolParams, bHex: string, network: Network, digest: string)
    ensures RedeemDigest(lib, txLock, p, bHex, network) == Ok(digest)
       <==> IsRedeemDigest(lib, txLock, p, bHex, network, digest)
  {
    hide MultisigScript, P2wsh;
  }

  /** Releasing Alice's signature commits to the key the coins were locked to: if the funding
      transaction pays the (A, B) lock address, then a redeem digest computed on it with
      parameters naming A' exists only when A' and A are the same key. */
  lemma RedeemBindsFundedKey(lib: Lib, coins: seq<(OutPoint, int)>, amount: Option<int>, a: string, b: string,
                             network: Network, released: ProtocolParams)
    requires Sha256Injective(lib) && AddressRoundTrip(lib)
    requires LockAddress(lib, a, b, network).Some?
    requires FundingTx(lib, coins, LockAddress(lib, a, b, network).value, amount, network).Some?
    requires RedeemDigest(lib, FundingTx(lib, coins, LockAddress(lib, a, b, network).value, amount, network).value,
                          released, b, network).Ok?
    ensures lib.hex(released.A) == lib.hex(a)
  {
    var tx := FundingTx(lib, coins, LockAddress(lib, a, b, network).value, amount, network).value;
    var lock := LocateLock(lib, tx, released.A, b);
    assert tx.outs[0].script == P2wsh(lib, MultisigScript(lib, a, b).value);
    P2wshBindsKeys(lib, a, b, released.A, b);
  }
}
