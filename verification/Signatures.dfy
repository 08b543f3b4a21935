/** What Bob's pre-signatures are good for: each is made for the output its transaction spends, with
    the script and the value that output really has, since the signature hash commits to both. */
module Signatures {
  import opened Wrappers
  import opened Bitcoin
  import opened Presign

  /** The one input of `tx` spends an output of `parent`, and `digest` is the hash that a signature
      for it must sign: the script is the one that output pays to, the value is the one it holds. */
  ghost predicate DigestFits(lib: Lib, digest: string, tx: Tx, parent: Tx) {
    && |tx.ins| == 1
    && tx.ins[0].prev.txid == lib.txid(parent)
    && tx.ins[0].prev.vout < |parent.outs|
    && exists script :: (
         && P2wsh(lib, script) == parent.outs[tx.ins[0].prev.vout].script
         && digest == lib.sighash(tx, 0, script, parent.outs[tx.ins[0].prev.vout].value))
  }

  ghost predicate SignatureFits(lib: Lib, bHex: string, sig: string, tx: Tx, parent: Tx) {
    exists digest :: sig == lib.sign(bHex, digest) && DigestFits(lib, digest, tx, parent)
  }

  lemma FitsWith(lib: Lib, bHex: string, tx: Tx, parent: Tx, script: Bytes, value: int)
    requires |tx.ins| == 1 && tx.ins[0].prev.txid == lib.txid(parent) && tx.ins[0].prev.vout < |parent.outs|
    requires parent.outs[tx.ins[0].prev.vout] == TxOut(P2wsh(lib, script), value)
    ensures SignatureFits(lib, bHex, SignInput(lib, bHex, tx, script, value), tx, parent)
  {
    assert DigestFits(lib, lib.sighash(tx, 0, script, value), tx, parent);
  }

  /** The lock that is located is an output of the lock transaction. */
  lemma LockIsAnOutput(lib: Lib, tx: Tx, aHex: string, bHex: string)
    requires LocateLock(lib, tx, aHex, bHex).Ok?
    ensures var lock := LocateLock(lib, tx, aHex, bHex).value;
      && lock.txid == lib.txid(tx) && lock.vout < |tx.outs|
      && tx.outs[lock.vout] == TxOut(P2wsh(lib, lock.script), lock.value)
      && lock.p2wsh == P2wsh(lib, lock.script)
  {
  }

  /** Every signature of an accepted request fits the output its transaction spends: TxCancel and
      TxEarlyRefund the lock, TxPunish what TxCancel locks, TxReclaim and TxWithhold the amnesty output
      of TxPartialRefund, TxMercy what TxWithhold locks. */
  lemma EverySignatureFits(lib: Lib, rq: Request)
    requires BuildTemplates(lib, rq).Ok?
    ensures PreSigsOf(lib, rq).Ok?
    ensures var t, sigs := BuildTemplates(lib, rq).value, PreSigsOf(lib, rq).value;
      && SignatureFits(lib, rq.bHex, sigs.cancel, t.cancel, rq.txLock)
      && SignatureFits(lib, rq.bHex, sigs.earlyRefund, t.earlyRefund, rq.txLock)
      && SignatureFits(lib, rq.bHex, sigs.punish, t.punish, t.cancel)
      && (sigs.amnesty.Some? <==> t.amnesty.Some?)
      && (t.amnesty.Some? ==>
            && SignatureFits(lib, rq.bHex, sigs.amnesty.value.reclaim, t.amnesty.value.reclaim,
                             t.amnesty.value.partialRefund)
            && SignatureFits(lib, rq.bHex, sigs.amnesty.value.withhold, t.amnesty.value.withhold,
                             t.amnesty.value.partialRefund)
            && SignatureFits(lib, rq.bHex, sigs.amnesty.value.mercy, t.amnesty.value.mercy, t.amnesty.value.withhold))
  {
    hide SignatureFits, LocateLock, AmnestyTemplates;
    AcceptsExactly(lib, rq);
    var t, b := BuildTemplates(lib, rq).value, rq.bHex;
    LockIsAnOutput(lib, rq.txLock, rq.params.A, lib.publicKey(b).value);
    FitsWith(lib, b, t.cancel, rq.txLock, t.lock.script, t.lock.value);
    FitsWith(lib, b, t.earlyRefund, rq.txLock, t.lock.script, t.lock.value);
    FitsWith(lib, b, t.punish, t.cancel, t.lock.script, CancelValue(t.lock.value, rq.params));
    if t.amnesty.Some? {
      AmnestySignaturesFit(lib, rq, t.lock, t.cancel);
    }
  }

  lemma AmnestySignaturesFit(lib: Lib, rq: Request, lock: Lock, cancel: Tx)
    requires HasAmnesty(rq.params) && CheckTimelocks(rq.params).Pass? && lock.p2wsh == P2wsh(lib, lock.script)
    requires AmnestyTemplates(lib, rq, lock, cancel).Ok?
    ensures var a, amnesty := AmnestyTemplates(lib, rq, lock, cancel).value, AmnestyAmount(rq.params);
      && SignatureFits(lib, rq.bHex, SignInput(lib, rq.bHex, a.reclaim, lock.script, amnesty), a.reclaim,
                       a.partialRefund)
      && SignatureFits(lib, rq.bHex, SignInput(lib, rq.bHex, a.withhold, lock.script, amnesty), a.withhold,
                       a.partialRefund)
      && SignatureFits(lib, rq.bHex, SignInput(lib, rq.bHex, a.mercy, lock.script, WithholdValue(rq.params)), a.mercy,
                       a.withhold)
  {
    hide SignatureFits;
    var a := AmnestyTemplates(lib, rq, lock, cancel).value;
    FitsWith(lib, rq.bHex, a.reclaim, a.partialRefund, lock.script, AmnestyAmount(rq.params));
    FitsWith(lib, rq.bHex, a.withhold, a.partialRefund, lock.script, AmnestyAmount(rq.params));
    FitsWith(lib, rq.bHex, a.mercy, a.withhold, lock.script, WithholdValue(rq.params));
  }

  /** Whom each output pays: Alice's punish her own address, what the graph spends again the 2-of-2,
      everything else Bob's refund address. */
  lemma OutputsPayTheirOwners(lib: Lib, rq: Request)
    requires BuildTemplates(lib, rq).Ok?
    ensures var t, p := BuildTemplates(lib, rq).value, rq.params;
      var bob, alice := lib.outputScript(rq.refundAddress, rq.network), lib.outputScript(p.punishAddress, rq.network);
      && t.lock.p2wsh == P2wsh(lib, t.lock.script)
      && MultisigScript(lib, p.A, lib.publicKey(rq.bHex).value) == Some(t.lock.script)
      && PayTo(t.cancel, [Some(t.lock.p2wsh)]) && PayTo(t.punish, [alice]) && PayTo(t.earlyRefund, [bob])
      && (t.amnesty.Some? ==>
            && PayTo(t.amnesty.value.partialRefund, [bob, Some(t.lock.p2wsh)]) && PayTo(t.amnesty.value.reclaim, [bob])
            && PayTo(t.amnesty.value.withhold, [Some(t.lock.p2wsh)]) && PayTo(t.amnesty.value.mercy, [bob]))
  {
    AcceptsExactly(lib, rq);
  }

  /** The outputs of a transaction pay these scripts, in this order. */
  predicate PayTo(tx: Tx, scripts: seq<Option<Bytes>>) {
    |tx.outs| == |scripts| && forall i :: 0 <= i < |scripts| ==> scripts[i] == Some(tx.outs[i].script)
  }
}
