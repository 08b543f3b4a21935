/** The key algebra that ties the Monero lock check, the output scan and the spend.
    Points are those of the prime-order subgroup, written by their discrete logarithm: the base
    point is 1. Hashing and point coding are arbitrary functions. */
module MoneroKeys {
  import opened Wrappers
  import opened Bitcoin
  import opened Varint
  import opened Scalars

  type Point = p: int | 0 <= p < GROUP_ORDER witness 0

  const BASE: Point := 1
  const MIN_CONFIRMATIONS: int := 10

  datatype MoneroLib = MoneroLib(
    keccak: Bytes -> Bytes,
    encode: Point -> Bytes,
    decode: Bytes -> Option<Point>
  )

  ghost predicate PointCoding(lib: MoneroLib) {
    forall p: Point :: lib.decode(lib.encode(p)) == Some(p)
  }

  /** Point multiplication rejects the scalars 0 and those not below the group order. */
  function Multiply(n: int, p: Point): Option<Point> {
    if 1 <= n < GROUP_ORDER then Some((n * p) % GROUP_ORDER) else None
  }

  function Add(p: Point, q: Point): Point {
    (p + q) % GROUP_ORDER
  }

  /** Multiplication by the cofactor. */
  function Times8(p: Point): Point {
    (8 * p) % GROUP_ORDER
  }

  function ScalarOf(bytes: Bytes): Point {
    ValueLE(bytes) % GROUP_ORDER
  }

  datatype Vout = Vout(unlockTime: Option<int>, key: Option<Bytes>)
  datatype MoneroTx = MoneroTx(unlockTime: Option<int>, extra: Bytes, vout: seq<Vout>, ecdh: seq<Bytes>)

  /** The first tag-1 byte with 32 bytes after it starts the transaction public key. */
  function TxPubKey(extra: Bytes): Option<Bytes> {
    if |extra| < 33 then None
    else if extra[0] == 1 then Some(extra[1..33])
    else TxPubKey(extra[1..])
  }

  /** A tag-1 byte with 32 bytes after it. */
  predicate KeyAt(extra: Bytes, i: nat) {
    i + 32 < |extra| && extra[i] == 1
  }

  /** The first such position decides, and without one there is no key. */
  lemma {:induction false} TxPubKeyIsFirst(extra: Bytes, i: nat)
    ensures KeyAt(extra, i) && (forall j :: 0 <= j < i ==> !KeyAt(extra, j)) ==>
              TxPubKey(extra) == Some(extra[i + 1..i + 33])
    ensures TxPubKey(extra).None? <==> forall j :: 0 <= j ==> !KeyAt(extra, j)
  {
    if |extra| >= 33 && extra[0] != 1 {
      var rest := extra[1..];
      TxPubKeyIsFirst(rest, if i > 0 then i - 1 else 0);
      assert forall j :: 0 <= j ==> (KeyAt(rest, j) <==> KeyAt(extra, j + 1));
      if forall j :: 0 <= j ==> !KeyAt(rest, j) {
        forall j | 0 <= j ensures !KeyAt(extra, j) {
          if j > 0 { assert !KeyAt(rest, j - 1); }
        }
      }
      if KeyAt(extra, i) && forall j :: 0 <= j < i ==> !KeyAt(extra, j) {
        assert rest[i..i + 32] == extra[i + 1..i + 33];
      }
    } else if |extra| >= 33 {
      assert KeyAt(extra, 0);
    }
  }

  method ExtractTxPubKey(extra: Bytes) returns (r: Option<Bytes>)
    ensures r == TxPubKey(extra)
  {
    for i := 0 to |extra|
      invariant TxPubKey(extra) == TxPubKey(extra[i..])
    {
      if extra[i] == 1 && i + 32 < |extra| {
        assert extra[i..][1..33] == extra[i + 1..i + 33];
        return Some(extra[i + 1..i + 33]);
      }
      assert extra[i..][1..] == extra[i + 1..];
    }
    return None;
  }

  /** Hs(D8 || varint(i)), as the TypeScript side computes it. */
  function DeriveScalar(lib: MoneroLib, d8: Bytes, index: nat): Point {
    ScalarOf(lib.keccak(Preimage(d8, index % TWO32)))
  }

  /** The same scalar, as the Rust side computes it. */
  function DerivationToScalar(lib: MoneroLib, derivation: Point, index: nat): Point {
    ScalarOf(lib.keccak(Preimage(lib.encode(derivation), index)))
  }

  /** P' = Hs(D8 || varint(i))*G + B; None where the multiplication rejects a zero scalar. */
  function ExpectedKey(lib: MoneroLib, d8: Bytes, index: nat, spendPub: Point): Option<Point> {
    var h := Multiply(DeriveScalar(lib, d8, index), BASE);
    if h.None? then None else Some(Add(h.value, spendPub))
  }

  // ----- the lock check -----

  function Two(k: nat): nat {
    if k == 0 then 1 else 2 * Two(k - 1)
  }

  /** Exclusive or on the low k bits. */
  function XorBits(a: nat, b: nat, k: nat): (r: nat)
    ensures r < Two(k)
  {
    if k == 0 then 0 else (a % 2 + b % 2) % 2 + 2 * XorBits(a / 2, b / 2, k - 1)
  }

  function Xor(a: Byte, b: Byte): Byte {
    assert Two(8) == 0x100;
    XorBits(a, b, 8)
  }

  /** The i-th binary digit, from the lowest. */
  function Digit(n: nat, i: nat): bool {
    if i == 0 then n % 2 == 1 else Digit(n / 2, i - 1)
  }

  /** A digit is set in the result when it is set in exactly one operand. */
  lemma {:induction false} XorByDigits(a: nat, b: nat, k: nat, i: nat)
    requires i < k
    ensures Digit(XorBits(a, b, k), i) <==> Digit(a, i) != Digit(b, i)
  {
    var low, high := (a % 2 + b % 2) % 2, XorBits(a / 2, b / 2, k - 1);
    assert (low + 2 * high) % 2 == low && (low + 2 * high) / 2 == high;
    if i > 0 { XorByDigits(a / 2, b / 2, k - 1, i - 1); }
  }

  function ByteAt(bytes: Bytes, i: nat): Byte {
    if i < |bytes| then bytes[i] else 0
  }

  const AMOUNT_PREFIX: Bytes := [0x61, 0x6d, 0x6f, 0x75, 0x6e, 0x74]

  function Ascii(s: string): (r: seq<int>)
    ensures |r| == |s| && forall i :: 0 <= i < |s| ==> r[i] == s[i] as int
  {
    seq(|s|, i requires 0 <= i < |s| => s[i] as int)
  }

  function AmountKey(lib: MoneroLib, d8: Bytes, index: nat): Bytes {
    lib.keccak(AMOUNT_PREFIX + ScalarBytes(ValueLE(lib.keccak(Preimage(d8, index % TWO32)))))
  }

  function Unmask(encrypted: Bytes, key: Bytes): (r: Bytes)
    ensures |r| == 8
  {
    seq(8, i requires 0 <= i < 8 => Xor(ByteAt(encrypted, i), ByteAt(key, i)))
  }

  function AmountOf(lib: MoneroLib, d8: Bytes, index: nat, ecdh: seq<Bytes>): nat {
    if index < |ecdh| then ValueLE(Unmask(ecdh[index], AmountKey(lib, d8, index))) else 0
  }

  lemma UnmaskAt(encrypted: Bytes, key: Bytes, i: nat)
    requires i < 8
    ensures Unmask(encrypted, key)[i] == Xor(ByteAt(encrypted, i), ByteAt(key, i))
  {
    hide Xor, ByteAt;
  }

  method DecryptAmount(lib: MoneroLib, d8: Bytes, index: nat, ecdh: seq<Bytes>) returns (amount: nat)
    ensures amount == AmountOf(lib, d8, index, ecdh)
  {
    hide AmountKey, Xor, Unmask, ByteAt;
    if index >= |ecdh| { return 0; }
    var key := AmountKey(lib, d8, index);
    ghost var plain := Unmask(ecdh[index], key);
    var decrypted := new Byte[8];
    for i := 0 to 8
      invariant forall j :: 0 <= j < i ==> decrypted[j] == plain[j]
    {
      UnmaskAt(ecdh[index], key, i);
      decrypted[i] := Xor(ByteAt(ecdh[index], i), ByteAt(key, i));
    }
    assert decrypted[..] == plain;
    amount := 0;
    var i := 7;
    while i >= 0
      invariant -1 <= i <= 7 && decrypted[..] == plain
      invariant amount == ValueLE(plain[i + 1..])
    {
      assert plain[i..][1..] == plain[i + 1..] && plain[i] == decrypted[..][i];
      amount := amount * 0x100 + decrypted[i];
      i := i - 1;
    }
    assert plain[0..] == plain;
  }

  datatype LockParams = LockParams(viewKey: Bytes, spendPub: Option<Point>, expectedAmount: int, txKey: Option<Bytes>)
  datatype Fetched = Fetched(tx: MoneroTx, confirmations: int)

  datatype LockAnswer =
    | Threw
    | Rejected(amount: int, retryable: bool)
    | Verified(index: nat, amount: int)

  /** D8 by Alice's transaction key when she gave one, after checking R = r*G; by the shared view
      key otherwise. */
  function LockSecret(lib: MoneroLib, params: LockParams, txPubKey: Bytes): Option<Bytes> {
    var v := ScalarOf(params.viewKey);
    if params.txKey.Some? then
      var r := ScalarOf(params.txKey.value);
      var expectedR := Multiply(r, BASE);
      if expectedR.None? || lib.encode(expectedR.value) != txPubKey then None
      else
        var viewPub := Multiply(v, BASE);
        if viewPub.None? then None
        else
          var shared := Multiply(r, viewPub.value);
          if shared.None? then None else Some(lib.encode(Times8(shared.value)))
    else ViewKeySecret(lib, v, txPubKey)
  }

  /** D8 = 8 v R, the only way the sweep computes it. */
  function ViewKeySecret(lib: MoneroLib, v: Point, txPubKey: Bytes): Option<Bytes> {
    var R := lib.decode(txPubKey);
    if R.None? then None
    else
      var shared := Multiply(v, R.value);
      if shared.None? then None else Some(lib.encode(Times8(shared.value)))
  }

  predicate Locked(unlockTime: Option<int>) {
    unlockTime.Some? && unlockTime.value != 0
  }

  /** The verdict on outputs i and later: the first spendable output paying B decides. */
  function JudgeFrom(lib: MoneroLib, tx: MoneroTx, d8: Bytes, spendPub: Point, expectedAmount: int, i: nat): LockAnswer
    decreases |tx.vout| - i
  {
    if i >= |tx.vout| then Rejected(0, false)
    else if Locked(tx.vout[i].unlockTime) || tx.vout[i].key.None? then
      JudgeFrom(lib, tx, d8, spendPub, expectedAmount, i + 1)
    else
      var expected := ExpectedKey(lib, d8, i, spendPub);
      if expected.None? then Threw
      else if lib.encode(expected.value) != tx.vout[i].key.value then
        JudgeFrom(lib, tx, d8, spendPub, expectedAmount, i + 1)
      else
        var amount := AmountOf(lib, d8, i, tx.ecdh);
        if amount < expectedAmount then Rejected(amount, false) else Verified(i, amount)
  }

  function Judge(lib: MoneroLib, fetched: Option<Fetched>, params: LockParams): LockAnswer {
    if fetched.None? || fetched.value.confirmations < MIN_CONFIRMATIONS then Rejected(0, true)
    else
      var tx := fetched.value.tx;
      if Locked(tx.unlockTime) then Rejected(0, false)
      else
        var R := TxPubKey(tx.extra);
        if R.None? then Rejected(0, false)
        else
          var d8 := LockSecret(lib, params, R.value);
          if d8.None? || params.spendPub.None? then Rejected(0, false)
          else JudgeFrom(lib, tx, d8.value, params.spendPub.value, params.expectedAmount, 0)
  }

  method VerifyXmrLocked(lib: MoneroLib, fetched: Option<Fetched>, params: LockParams) returns (r: LockAnswer)
    ensures r == Judge(lib, fetched, params)
  {
    hide AmountOf, TxPubKey;
    if fetched.None? { return Rejected(0, true); }
    if fetched.value.confirmations < MIN_CONFIRMATIONS { return Rejected(0, true); }
    var tx := fetched.value.tx;
    if tx.unlockTime.Some? && tx.unlockTime.value != 0 { return Rejected(0, false); }
    var txPubKey := ExtractTxPubKey(tx.extra);
    if txPubKey.None? { return Rejected(0, false); }
    var d8 := LockSecret(lib, params, txPubKey.value);
    if d8.None? { return Rejected(0, false); }
    if params.spendPub.None? { return Rejected(0, false); }
    var B := params.spendPub.value;
    for i := 0 to |tx.vout|
      invariant JudgeFrom(lib, tx, d8.value, B, params.expectedAmount, 0)
             == JudgeFrom(lib, tx, d8.value, B, params.expectedAmount, i)
    {
      var output := tx.vout[i];
      if output.unlockTime.Some? && output.unlockTime.value != 0 { continue; }
      if output.key.None? { continue; }
      var expected := ExpectedKey(lib, d8.value, i, B);
      if expected.None? { return Threw; }
      if lib.encode(expected.value) == output.key.value {
        var amount := DecryptAmount(lib, d8.value, i, tx.ecdh);
        if amount < params.expectedAmount { return Rejected(amount, false); }
        return Verified(i, amount);
      }
    }
    return Rejected(0, false);
  }

  /** An output of the transaction that pays B under the shared secret, and is not time-locked. */
  predicate PaysLock(lib: MoneroLib, tx: MoneroTx, d8: Bytes, spendPub: Point, i: nat) {
    && i < |tx.vout|
    && !Locked(tx.vout[i].unlockTime)
    && ExpectedKey(lib, d8, i, spendPub).Some?
    && tx.vout[i].key == Some(lib.encode(ExpectedKey(lib, d8, i, spendPub).value))
  }

  lemma {:induction false} JudgeFromVerified(lib: MoneroLib, tx: MoneroTx, d8: Bytes, spendPub: Point,
                                             expectedAmount: int, i: nat)
    requires JudgeFrom(lib, tx, d8, spendPub, expectedAmount, i).Verified?
    ensures var r := JudgeFrom(lib, tx, d8, spendPub, expectedAmount, i);
            && i <= r.index && PaysLock(lib, tx, d8, spendPub, r.index)
            && r.amount == AmountOf(lib, d8, r.index, tx.ecdh) && r.amount >= expectedAmount
            && forall j :: i <= j < r.index ==> !PaysLock(lib, tx, d8, spendPub, j)
    decreases |tx.vout| - i
  {
    hide AmountOf;
    if !PaysLock(lib, tx, d8, spendPub, i) {
      JudgeFromVerified(lib, tx, d8, spendPub, expectedAmount, i + 1);
    }
  }

  /** A verified lock is a confirmed transaction, not time-locked, whose first output paying B
      carries at least the expected amount. */
  lemma VerifiedLockIsReal(lib: MoneroLib, fetched: Option<Fetched>, params: LockParams)
    requires Judge(lib, fetched, params).Verified?
    ensures var r := Judge(lib, fetched, params);
            && fetched.Some? && fetched.value.confirmations >= MIN_CONFIRMATIONS
            && var tx := fetched.value.tx;
            && !Locked(tx.unlockTime) && TxPubKey(tx.extra).Some? && params.spendPub.Some?
            && var d8 := LockSecret(lib, params, TxPubKey(tx.extra).value);
            && d8.Some? && PaysLock(lib, tx, d8.value, params.spendPub.value, r.index)
            && AmountOf(lib, d8.value, r.index, tx.ecdh) >= params.expectedAmount
            && forall j :: 0 <= j < r.index ==> !PaysLock(lib, tx, d8.value, params.spendPub.value, j)
  {
    hide AmountOf;
    var tx := fetched.value.tx;
    var d8 := LockSecret(lib, params, TxPubKey(tx.extra).value).value;
    JudgeFromVerified(lib, tx, d8, params.spendPub.value, params.expectedAmount, 0);
  }

  /** Only a failed fetch or missing confirmations may be retried. */
  lemma RetryableExactly(lib: MoneroLib, fetched: Option<Fetched>, params: LockParams)
    ensures (Judge(lib, fetched, params).Rejected? && Judge(lib, fetched, params).retryable)
       <==> fetched.None? || fetched.value.confirmations < MIN_CONFIRMATIONS
  {
    if fetched.Some? && fetched.value.confirmations >= MIN_CONFIRMATIONS {
      var tx := fetched.value.tx;
      if TxPubKey(tx.extra).Some? && LockSecret(lib, params, TxPubKey(tx.extra).value).Some? && params.spendPub.Some? {
        var d8 := LockSecret(lib, params, TxPubKey(tx.extra).value).value;
        OutputsNeverRetry(lib, tx, d8, params.spendPub.value, params.expectedAmount, 0);
      }
    }
  }

  lemma {:induction false} OutputsNeverRetry(lib: MoneroLib, tx: MoneroTx, d8: Bytes, spendPub: Point,
                                             expectedAmount: int, i: nat)
    ensures JudgeFrom(lib, tx, d8, spendPub, expectedAmount, i).Rejected?
        ==> !JudgeFrom(lib, tx, d8, spendPub, expectedAmount, i).retryable
    decreases |tx.vout| - i
  {
    hide AmountOf;
    if i < |tx.vout| {
      OutputsNeverRetry(lib, tx, d8, spendPub, expectedAmount, i + 1);
    }
  }
}
