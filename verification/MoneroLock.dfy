/** When exactly a Monero lock is accepted, and that the lock an honest Alice sends always is. */
module MoneroLock {
  import opened Wrappers
  import opened Bitcoin
  import opened Varint
  import opened Scalars
  import opened MoneroKeys

  /** An output at which the scan throws: unlocked, with a key, but with a zero derived scalar. */
  predicate Throws(lib: MoneroLib, tx: MoneroTx, d8: Bytes, spendPub: Point, i: nat) {
    i < |tx.vout| && !Locked(tx.vout[i].unlockTime) && tx.vout[i].key.Some? && ExpectedKey(lib, d8, i, spendPub).None?
  }

  /** Output k is the first from i on that pays the key, and the scan reaches it. */
  predicate FirstPayment(lib: MoneroLib, tx: MoneroTx, d8: Bytes, spendPub: Point, i: nat, k: nat) {
    && i <= k && PaysLock(lib, tx, d8, spendPub, k)
    && forall j :: i <= j < k ==> !PaysLock(lib, tx, d8, spendPub, j) && !Throws(lib, tx, d8, spendPub, j)
  }

  lemma {:induction false} JudgeFromExactly(lib: MoneroLib, tx: MoneroTx, d8: Bytes, spendPub: Point,
                                            expectedAmount: int, i: nat, k: nat, amount: int)
    ensures JudgeFrom(lib, tx, d8, spendPub, expectedAmount, i) == Verified(k, amount) <==>
      && FirstPayment(lib, tx, d8, spendPub, i, k)
      && amount == AmountOf(lib, d8, k, tx.ecdh) && amount >= expectedAmount
    decreases |tx.vout| - i
  {
    hide AmountOf, ExpectedKey, FirstPayment;
    if i >= |tx.vout| {
      assert !FirstPayment(lib, tx, d8, spendPub, i, k) by { PaymentIsAnOutput(lib, tx, d8, spendPub, i, k); }
    } else {
      JudgeFromExactly(lib, tx, d8, spendPub, expectedAmount, i + 1, k, amount);
      FirstPaymentFrom(lib, tx, d8, spendPub, i, k);
    }
  }

  lemma PaymentIsAnOutput(lib: MoneroLib, tx: MoneroTx, d8: Bytes, spendPub: Point, i: nat, k: nat)
    ensures FirstPayment(lib, tx, d8, spendPub, i, k) ==> i <= k < |tx.vout|
  {
  }

  lemma FirstPaymentFrom(lib: MoneroLib, tx: MoneroTx, d8: Bytes, spendPub: Point, i: nat, k: nat)
    ensures PaysLock(lib, tx, d8, spendPub, i) ==> (FirstPayment(lib, tx, d8, spendPub, i, k) <==> k == i)
    ensures Throws(lib, tx, d8, spendPub, i) ==> !FirstPayment(lib, tx, d8, spendPub, i, k)
    ensures !PaysLock(lib, tx, d8, spendPub, i) && !Throws(lib, tx, d8, spendPub, i) ==>
      (FirstPayment(lib, tx, d8, spendPub, i, k) <==> FirstPayment(lib, tx, d8, spendPub, i + 1, k))
  {
    hide ExpectedKey;
    assert Throws(lib, tx, d8, spendPub, i) ==> !PaysLock(lib, tx, d8, spendPub, i);
  }

  /** A lock is verified at output k with an amount if and only if the transaction is confirmed ten
      times and not time-locked, its public key and the shared secret can be computed, and k is the
      first output paying the spend key, holding that amount, which is enough. */
  lemma LockVerifiedExactly(lib: MoneroLib, fetched: Option<Fetched>, params: LockParams, k: nat, amount: int)
    ensures Judge(lib, fetched, params) == Verified(k, amount) <==>
      && fetched.Some? && fetched.value.confirmations >= 10
      && var tx := fetched.value.tx;
      && !Locked(tx.unlockTime) && TxPubKey(tx.extra).Some? && params.spendPub.Some?
      && var d8 := LockSecret(lib, params, TxPubKey(tx.extra).value);
      && d8.Some? && FirstPayment(lib, tx, d8.value, params.spendPub.value, 0, k)
      && amount == AmountOf(lib, d8.value, k, tx.ecdh) && amount >= params.expectedAmount
  {
    hide AmountOf, JudgeFrom, LockSecret, TxPubKey, FirstPayment;
    if fetched.Some? && TxPubKey(fetched.value.tx.extra).Some? && params.spendPub.Some? {
      var tx := fetched.value.tx;
      var d8 := LockSecret(lib, params, TxPubKey(tx.extra).value);
      if d8.Some? {
        JudgeFromExactly(lib, tx, d8.value, params.spendPub.value, params.expectedAmount, 0, k, amount);
      }
    }
  }

  /* ----- the amount ----- */

  lemma XorTwice(a: Byte, b: Byte)
    ensures Xor(Xor(a, b), b) == a
  {
    assert Two(8) == 0x100;
    hide XorBits, Two;
    XorBitsTwice(a, b, 8);
  }

  lemma {:induction false} XorBitsTwice(a: nat, b: nat, k: nat)
    requires a < Two(k)
    ensures XorBits(XorBits(a, b, k), b, k) == a
  {
    if k > 0 {
      XorBitsTwice(a / 2, b / 2, k - 1);
      BitAndRest((a % 2 + b % 2) % 2, XorBits(a / 2, b / 2, k - 1));
      BitTwice(a % 2, b % 2);
    }
  }

  lemma BitAndRest(low: nat, high: nat)
    requires low < 2
    ensures (low + 2 * high) % 2 == low && (low + 2 * high) / 2 == high
  {
  }

  lemma BitTwice(x: nat, y: nat)
    requires x < 2 && y < 2
    ensures ((x + y) % 2 + y) % 2 == x
  {
  }

  /** An amount masked with the key of its output reads back, for every u64. */
  lemma AmountReadsBack(lib: MoneroLib, d8: Bytes, index: nat, ecdh: seq<Bytes>, amount: nat)
    requires index < |ecdh| && amount < TWO64
    requires ecdh[index] == Unmask(EncodeLE(amount, 8), AmountKey(lib, d8, index))
    ensures AmountOf(lib, d8, index, ecdh) == amount
  {
    hide EncodeLE, AmountKey, ValueLE, Xor;
    var plain, key := EncodeLE(amount, 8), AmountKey(lib, d8, index);
    forall i | 0 <= i < 8 ensures Unmask(ecdh[index], key)[i] == plain[i] {
      XorTwice(plain[i], ByteAt(key, i));
    }
    assert Unmask(ecdh[index], key) == plain;
    assert Pow256(8) == TWO64;
    ValueOfEncoding(amount, 8);
  }

  /* ----- the honest lock ----- */

  /** The shared secret of a transaction key r and a view key v. */
  function HonestSecret(lib: MoneroLib, r: Point, v: Point): Bytes {
    lib.encode(Times8((r * v) % GROUP_ORDER))
  }

  /** What Alice's wallet sends: R = r*G in the extra field, and at any place an output, the first to
      pay the spend key, with the amount masked for it. */
  predicate HonestLock(lib: MoneroLib, tx: MoneroTx, r: Point, v: Point, spendPub: Point, k: nat, amount: nat) {
    var d8 := HonestSecret(lib, r, v);
    && !Locked(tx.unlockTime) && TxPubKey(tx.extra) == Some(lib.encode(r))
    && FirstPayment(lib, tx, d8, spendPub, 0, k)
    && k < |tx.ecdh| && tx.ecdh[k] == Unmask(EncodeLE(amount, 8), AmountKey(lib, d8, k))
  }

  /** An honest lock of enough, once confirmed ten times, is verified, whether or not Alice hands over
      her transaction key. */
  lemma HonestLockIsVerified(lib: MoneroLib, tx: MoneroTx, r: Point, v: Point, k: nat, amount: nat, confirmations: int,
                             params: LockParams)
    requires PointCoding(lib) && r != 0 && v != 0 && amount < TWO64
    requires ScalarOf(params.viewKey) == v && (params.txKey.Some? ==> ScalarOf(params.txKey.value) == r)
    requires params.spendPub.Some? && HonestLock(lib, tx, r, v, params.spendPub.value, k, amount)
    requires amount >= params.expectedAmount && confirmations >= 10
    ensures Judge(lib, Some(Fetched(tx, confirmations)), params) == Verified(k, amount)
  {
    hide AmountOf, TxPubKey, PaysLock, FirstPayment, Judge, ValueLE, EncodeLE, AmountKey, Unmask, ScalarOf;
    SecretIsHonest(lib, r, v, params);
    AmountReadsBack(lib, HonestSecret(lib, r, v), k, tx.ecdh, amount);
    LockVerifiedExactly(lib, Some(Fetched(tx, confirmations)), params, k, amount);
  }

  lemma SecretIsHonest(lib: MoneroLib, r: Point, v: Point, params: LockParams)
    requires PointCoding(lib) && r != 0 && v != 0
    requires ScalarOf(params.viewKey) == v && (params.txKey.Some? ==> ScalarOf(params.txKey.value) == r)
    ensures LockSecret(lib, params, lib.encode(r)) == Some(HonestSecret(lib, r, v))
  {
    hide ScalarOf, Times8;
    assert Multiply(r, BASE) == Some(r) by { ModuloUnique(r * BASE, r, 0); }
    assert Multiply(v, BASE) == Some(v) by { ModuloUnique(v * BASE, v, 0); }
    assert r * v == v * r;
  }
}
