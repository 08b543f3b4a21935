/** The refund builders, which rebuild from TxCancel the transactions that presigning hashed. */
module Refund {
  import opened Wrappers
  import opened Bitcoin
  import opened Presign

  datatype RefundError = CancelMalformed | RefundDust | AmnestyDust | DeriveFailed | AddressInvalid

  datatype FullRefund = FullRefund(tx: Tx, refundValue: int, cancelValue: int)
  datatype PartialRefund = PartialRefund(tx: Tx, refundValue: int, amnestyValue: int, cancelValue: int)

  function FullRefundOf(lib: Lib, txCancel: Tx, refundAddress: string, refundFee: int, network: Network)
    : Result<FullRefund, RefundError>
  {
    if txCancel.outs == [] then Err(CancelMalformed)
    else
      var cancelValue := txCancel.outs[0].value;
      var refundValue := cancelValue - refundFee;
      if refundValue <= DEFAULT_POLICY.p2wpkhDust then Err(RefundDust)
      else
        var script := lib.outputScript(refundAddress, network);
        if script.None? then Err(AddressInvalid)
        else
          var tx := Spend(OutPoint(lib.txid(txCancel), 0), SEQUENCE_FINAL, [TxOut(script.value, refundValue)]);
          Ok(FullRefund(tx, refundValue, cancelValue))
  }

  function PartialRefundOf(lib: Lib, txCancel: Tx, refundAddress: string, amnesty: int, partialFee: int,
                           aHex: string, bHex: string, network: Network)
    : Result<PartialRefund, RefundError>
  {
    if txCancel.outs == [] then Err(CancelMalformed)
    else
      var cancelValue := txCancel.outs[0].value;
      var refundValue := cancelValue - amnesty - partialFee;
      if refundValue <= DEFAULT_POLICY.p2wpkhDust then Err(RefundDust)
      else if amnesty <= DEFAULT_POLICY.p2wshDust then Err(AmnestyDust)
      else
        var script := MultisigScript(lib, aHex, bHex);
        if script.None? then Err(DeriveFailed)
        else
          var refundScript := lib.outputScript(refundAddress, network);
          if refundScript.None? then Err(AddressInvalid)
          else
            var tx := Spend(OutPoint(lib.txid(txCancel), 0), SEQUENCE_FINAL,
                            [TxOut(refundScript.value, refundValue), TxOut(P2wsh(lib, script.value), amnesty)]);
            Ok(PartialRefund(tx, refundValue, amnesty, cancelValue))
  }

  method BuildFullRefund(lib: Lib, txCancel: Tx, refundAddress: string, refundFee: int, network: Network)
    returns (r: Result<FullRefund, RefundError>)
    ensures r == FullRefundOf(lib, txCancel, refundAddress, refundFee, network)
  {
    if |txCancel.outs| == 0 { return Err(CancelMalformed); }
    var cancelValue := txCancel.outs[0].value;
    var refundValue := cancelValue - refundFee;
    if refundValue <= 294 { return Err(RefundDust); }
    var tx := new Transaction();
    tx.version := 2;
    tx.AddInput(OutPoint(lib.txid(txCancel), 0), SEQUENCE_FINAL);
    var script := lib.outputScript(refundAddress, network);
    if script.None? { return Err(AddressInvalid); }
    tx.AddOutput(script.value, refundValue);
    assert tx.Value() == Spend(OutPoint(lib.txid(txCancel), 0), SEQUENCE_FINAL, [TxOut(script.value, refundValue)]);
    return Ok(FullRefund(tx.Value(), refundValue, cancelValue));
  }

  method BuildPartialRefund(lib: Lib, txCancel: Tx, refundAddress: string, amnesty: int, partialFee: int,
                            aHex: string, bHex: string, network: Network)
    returns (r: Result<PartialRefund, RefundError>)
    ensures r == PartialRefundOf(lib, txCancel, refundAddress, amnesty, partialFee, aHex, bHex, network)
  {
    if |txCancel.outs| == 0 { return Err(CancelMalformed); }
    var cancelValue := txCancel.outs[0].value;
    var refundValue := cancelValue - amnesty - partialFee;
    if refundValue <= 294 { return Err(RefundDust); }
    if amnesty <= 330 { return Err(AmnestyDust); }
    var script := MultisigScript(lib, aHex, bHex);
    if script.None? { return Err(DeriveFailed); }
    var tx := new Transaction();
    tx.version := 2;
    tx.AddInput(OutPoint(lib.txid(txCancel), 0), SEQUENCE_FINAL);
    var refundScript := lib.outputScript(refundAddress, network);
    if refundScript.None? { return Err(AddressInvalid); }
    tx.AddOutput(refundScript.value, refundValue);
    tx.AddOutput(P2wsh(lib, script.value), amnesty);
    assert tx.outs == [TxOut(refundScript.value, refundValue), TxOut(P2wsh(lib, script.value), amnesty)];
    assert tx.Value() == Spend(OutPoint(lib.txid(txCancel), 0), SEQUENCE_FINAL, tx.outs);
    return Ok(PartialRefund(tx.Value(), refundValue, amnesty, cancelValue));
  }

  /** The amnesty branch that presigning accepted, rebuilt from its TxCancel: the very transaction
      whose id TxReclaim and TxWithhold spend, refused only when the refund output is 294 sats.
      The amnesty dust test of the builder can never be the one that fires. */
  lemma PartialRefundMatchesTemplate(lib: Lib, rq: Request)
    requires rq.policy == DEFAULT_POLICY
    requires BuildTemplates(lib, rq).Ok? && BuildTemplates(lib, rq).value.amnesty.Some?
    ensures HasAmnesty(rq.params) && lib.publicKey(rq.bHex).Some?
    ensures AmnestyAmount(rq.params) >= 602
    ensures var t := BuildTemplates(lib, rq).value;
            var p := rq.params;
            var refundValue := PartialRefundValue(t.lock.value, p);
            var built := PartialRefundOf(lib, t.cancel, rq.refundAddress, AmnestyAmount(p), p.partialRefundFee.value,
                                         p.A, lib.publicKey(rq.bHex).value, rq.network);
            && (refundValue == 294 <==> built.Err?)
            && (built.Err? ==> built.error == RefundDust)
            && (built.Ok? ==> built.value.tx == t.amnesty.value.partialRefund
                              && built.value.refundValue == refundValue
                              && built.value.amnestyValue == AmnestyAmount(p)
                              && built.value.cancelValue == t.cancel.outs[0].value)
            && t.amnesty.value.reclaim.ins[0].prev == OutPoint(lib.txid(t.amnesty.value.partialRefund), 1)
            && t.amnesty.value.withhold.ins[0].prev == OutPoint(lib.txid(t.amnesty.value.partialRefund), 1)
  {
    AcceptsExactly(lib, rq);
    var p := rq.params;
    var lock := LocateLock(lib, rq.txLock, p.A, lib.publicKey(rq.bHex).value).value;
    assert BuildTemplates(lib, rq).value.amnesty.value == AmnestyTemplates(lib, rq, lock, CancelTx(lock, p)).value;
  }

  /** A library that takes every key and every address, and a swap over it whose lock holds 3174 sats. */
  function ToyLib(): Lib {
    Lib(_ => seq(33, _ => 0), (b: Bytes) => b, _ => "", (_, _) => "", (_, _) => Some([]), (key: string) => Some(key),
        (_, _, _, _) => "", (_, _) => "", (_, _, _) => "", (_, _, _) => true)
  }

  function SmallSwap(): Request {
    var params := ProtocolParams(
      "a", "s", 72, 72, "redeem", "punish", 154, 154, 154, 154, Some(602), Some(2), Some(2124), Some(154), Some(154),
      Some(154), None, None, None, None, None, None, None, None, None, None, None);
    var script := P2wsh(ToyLib(), WitnessScript(seq(33, _ => 0), seq(33, _ => 0)));
    Request("b", Tx(2, 0, [], [TxOut(script, 3174)]), params, "refund", Regtest, DEFAULT_POLICY)
  }

  /** The refused case exists: presigning accepts this swap and its partial refund, of exactly 294 sats,
      is refused. The two dust tests disagree on that one value. */
  lemma PartialRefundCanBeRefused()
    ensures var rq := SmallSwap();
      var p, t := rq.params, BuildTemplates(ToyLib(), rq);
      && t.Ok? && t.value.amnesty.Some? && PreSigsOf(ToyLib(), rq).Ok?
      && PartialRefundOf(ToyLib(), t.value.cancel, rq.refundAddress, p.amnesty.value, p.partialRefundFee.value,
                         p.A, rq.bHex, rq.network) == Err(RefundDust)
  {
    hide AmnestyTemplates;
    var rq := SmallSwap();
    var zeros: Bytes := seq(33, _ => 0);
    assert MultisigScript(ToyLib(), rq.params.A, rq.bHex) == Some(WitnessScript(zeros, zeros));
    assert LocateLock(ToyLib(), rq.txLock, rq.params.A, rq.bHex).Ok?;
    assert Acceptable(ToyLib(), rq);
    AcceptsExactly(ToyLib(), rq);
    PartialRefundMatchesTemplate(ToyLib(), rq);
  }

  /** The single-output refund of an accepted swap is refused exactly when the two fees leave at
      most 294 sats, which a lock of 154295 sats or more rules out. */
  lemma FullRefundRefusedExactly(lib: Lib, rq: Request)
    requires rq.policy == DEFAULT_POLICY
    requires BuildTemplates(lib, rq).Ok?
    ensures var t := BuildTemplates(lib, rq).value;
            var built := FullRefundOf(lib, t.cancel, rq.refundAddress, rq.params.refundFee, rq.network);
            && (built.Err? <==> t.lock.value <= rq.params.cancelFee + rq.params.refundFee + 294)
            && (built.Err? ==> built.error == RefundDust)
            && (t.lock.value >= 154_295 ==> built.Ok?)
            && (built.Ok? ==>
                  && built.value.tx.ins[0].prev == OutPoint(lib.txid(t.cancel), 0)
                  && built.value.tx.outs[0].value == t.lock.value - rq.params.cancelFee - rq.params.refundFee
                  && built.value.refundValue == built.value.tx.outs[0].value
                  && built.value.cancelValue == t.cancel.outs[0].value)
  {
    AcceptsExactly(lib, rq);
  }
}
