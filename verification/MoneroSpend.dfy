/** From the locked output to the spend: combining the two key shares, scanning for owned outputs,
    and the check that guards key-image derivation. */
module MoneroSpend {
  import opened Wrappers
  import opened Bitcoin
  import opened Varint
  import opened Scalars
  import opened MoneroKeys

  datatype SweepError = SpendThrew | ShareMismatch

  datatype SweepKeys = SweepKeys(spendKey: Bytes, spendPub: Point)

  /** Alice's share must open S_a; then the shares are added and the spend public key derived. */
  function CombineShares(sA: Bytes, sB: Bytes, expectedSA: Point): Result<SweepKeys, SweepError> {
    var point := Multiply(ValueLE(sA), BASE);
    if point.None? then Err(SpendThrew)
    else if point.value != expectedSA then Err(ShareMismatch)
    else
      var full := SumOfScalars(sA, sB);
      var pub := Multiply(ScalarOf(full), BASE);
      if pub.None? then Err(SpendThrew) else Ok(SweepKeys(full, pub.value))
  }

  method PrepareSweepKeys(sA: Bytes, sB: Bytes, expectedSA: Point) returns (r: Result<SweepKeys, SweepError>)
    ensures r == CombineShares(sA, sB, expectedSA)
  {
    hide SumOfScalars;
    var share := BytesToBigIntLE(sA);
    var point := Multiply(share, BASE);
    if point.None? { return Err(SpendThrew); }
    if point.value != expectedSA { return Err(ShareMismatch); }
    var full := AddScalars(sA, sB);
    var scalar := BytesToBigIntLE(full);
    var pub := Multiply(scalar % GROUP_ORDER, BASE);
    if pub.None? { return Err(SpendThrew); }
    return Ok(SweepKeys(full, pub.value));
  }

  /** When Alice's share opens S_a and S_b is Bob's own share times the base point, the combined
      scalar opens exactly the key the lock check used; the only refusal left is a zero sum. */
  lemma SweepKeyOpensLock(sA: Bytes, sB: Bytes, SA: Point, SB: Point)
    requires SB == ScalarOf(sB)
    ensures CombineShares(sA, sB, SA).Ok?
       <==> 1 <= ValueLE(sA) < GROUP_ORDER && ValueLE(sA) == SA && Add(SA, SB) != 0
    ensures CombineShares(sA, sB, SA).Ok? ==>
              var keys := CombineShares(sA, sB, SA).value;
              keys.spendPub == Add(SA, SB) && ValueLE(keys.spendKey) == keys.spendPub && |keys.spendKey| == 32
  {
    SumOfScalarsValue(sA, sB);
    TimesBase(ValueLE(sA));
    TimesBase(ScalarOf(SumOfScalars(sA, sB)));
    hide SumOfScalars, ValueLE;
    if 1 <= ValueLE(sA) < GROUP_ORDER {
      ModuloUnique(ValueLE(sA), ValueLE(sA), 0);
      ModuloUnique(ValueLE(SumOfScalars(sA, sB)), ValueLE(SumOfScalars(sA, sB)), 0);
    }
  }

  lemma TimesBase(n: int)
    ensures 1 <= n < GROUP_ORDER ==> Multiply(n, BASE) == Some(n)
    ensures !(1 <= n < GROUP_ORDER) ==> Multiply(n, BASE) == None
  {
    if 1 <= n < GROUP_ORDER {
      ModuloUnique(n, n, 0);
    }
  }

  /** An output found: what the signer needs to spend it. */
  datatype Scanned = Scanned(key: Bytes, txPubKey: Bytes, index: nat, globalIndex: nat, amount: nat, mask: Bytes)

  /** What a scan is given: the transaction, the global indices a node reports for its outputs, and the keys. */
  datatype ScanJob = ScanJob(tx: MoneroTx, globals: seq<nat>, viewKey: Bytes, spendPub: Point)

  // ----- the Rust side: amounts and masks -----

  /** The shared scalar of an output; None where the Rust code refuses a key or a point. */
  function WasmScalar(lib: MoneroLib, viewKey: Bytes, txPubKey: Bytes, index: nat): Option<Point> {
    if |viewKey| != 32 || ValueLE(viewKey) >= GROUP_ORDER || |txPubKey| != 32 || lib.decode(txPubKey).None? then None
    else Some(DerivationToScalar(lib, Times8((ValueLE(viewKey) * lib.decode(txPubKey).value) % GROUP_ORDER), index))
  }

  /** The decrypted amount, or None where the call throws. */
  function WasmAmount(lib: MoneroLib, viewKey: Bytes, txPubKey: Bytes, index: nat, encrypted: Bytes): Option<nat> {
    var h := WasmScalar(lib, viewKey, txPubKey, index);
    if h.None? || |encrypted| != 8 then None
    else Some(ValueLE(Unmask(encrypted, lib.keccak(AMOUNT_PREFIX + EncodeLE(h.value, 32)))))
  }

  const MASK_PREFIX: Bytes :=
    [0x63, 0x6f, 0x6d, 0x6d, 0x69, 0x74, 0x6d, 0x65, 0x6e, 0x74, 0x5f, 0x6d, 0x61, 0x73, 0x6b]

  /** The blinding factor of an output's commitment, or None where the call throws. */
  function WasmMask(lib: MoneroLib, viewKey: Bytes, txPubKey: Bytes, index: nat): Option<Bytes> {
    var h := WasmScalar(lib, viewKey, txPubKey, index);
    if h.None? then None else Some(ScalarBytes(ValueLE(lib.keccak(MASK_PREFIX + EncodeLE(h.value, 32)))))
  }

  /** The amount the scan takes for output i: none is 0, anything else is decrypted by the Rust code. */
  function ScanAmount(lib: MoneroLib, job: ScanJob, txPubKey: Bytes, i: nat): Option<nat> {
    if i < |job.tx.ecdh| then WasmAmount(lib, job.viewKey, txPubKey, i, job.tx.ecdh[i]) else Some(0)
  }

  /** The Rust amount is the one the lock check decrypted. */
  lemma ScanAmountIsLockAmount(lib: MoneroLib, job: ScanJob, txPubKey: Bytes, d8: Bytes, i: nat)
    requires i < TWO32 && ViewKeySecret(lib, ScalarOf(job.viewKey), txPubKey) == Some(d8)
    requires ScanAmount(lib, job, txPubKey, i).Some?
    ensures ScanAmount(lib, job, txPubKey, i).value == AmountOf(lib, d8, i, job.tx.ecdh)
  {
    hide Unmask, EncodeLE, ValueLE;
    if i < |job.tx.ecdh| {
      ModuloUnique(ValueLE(job.viewKey), ValueLE(job.viewKey), 0);
      assert WasmScalar(lib, job.viewKey, txPubKey, i) == Some(DeriveScalar(lib, d8, i));
    }
  }

  /** An output with the mask '' when computing it throws. */
  function Owned(lib: MoneroLib, job: ScanJob, txPubKey: Bytes, i: nat): Scanned
    requires i < |job.tx.vout| && job.tx.vout[i].key.Some? && ScanAmount(lib, job, txPubKey, i).Some?
  {
    Scanned(job.tx.vout[i].key.value, txPubKey, i, if i < |job.globals| then job.globals[i] else 0,
            ScanAmount(lib, job, txPubKey, i).value, OrElse(WasmMask(lib, job.viewKey, txPubKey, i), []))
  }

  // ----- the scan -----

  /** Scanning throws when a derived scalar is zero or an amount cannot be decrypted. */
  function ScanFrom(lib: MoneroLib, job: ScanJob, txPubKey: Bytes, d8: Bytes, i: nat): Option<seq<Scanned>>
    decreases |job.tx.vout| - i
  {
    if i >= |job.tx.vout| then Some([])
    else if job.tx.vout[i].key.None? then ScanFrom(lib, job, txPubKey, d8, i + 1)
    else
      var expected := ExpectedKey(lib, d8, i, job.spendPub);
      if expected.None? then None
      else if lib.encode(expected.value) != job.tx.vout[i].key.value then ScanFrom(lib, job, txPubKey, d8, i + 1)
      else if ScanAmount(lib, job, txPubKey, i).None? then None
      else Prefixed([Owned(lib, job, txPubKey, i)], ScanFrom(lib, job, txPubKey, d8, i + 1))
  }

  function Prefixed(done: seq<Scanned>, rest: Option<seq<Scanned>>): Option<seq<Scanned>> {
    if rest.None? then None else Some(done + rest.value)
  }

  function Scan(lib: MoneroLib, job: ScanJob): Option<seq<Scanned>> {
    var R := TxPubKey(job.tx.extra);
    if R.None? then Some([])
    else
      var d8 := ViewKeySecret(lib, ScalarOf(job.viewKey), R.value);
      if d8.None? then Some([]) else ScanFrom(lib, job, R.value, d8.value, 0)
  }

  method ScanTransactionOutputs(lib: MoneroLib, job: ScanJob) returns (r: Option<seq<Scanned>>)
    ensures r == Scan(lib, job)
  {
    hide TxPubKey, ScanAmount, WasmMask;
    var txPubKey := ExtractTxPubKey(job.tx.extra);
    if txPubKey.None? { return Some([]); }
    var R := txPubKey.value;
    var secret := ViewKeySecret(lib, ScalarOf(job.viewKey), R);
    if secret.None? { return Some([]); }
    var d8 := secret.value;
    var results: seq<Scanned> := [];
    ghost var all := ScanFrom(lib, job, R, d8, 0);
    assert all.Some? ==> [] + all.value == all.value;
    for i := 0 to |job.tx.vout|
      invariant all == Prefixed(results, ScanFrom(lib, job, R, d8, i))
    {
      if job.tx.vout[i].key.None? { continue; }
      var expected := ExpectedKey(lib, d8, i, job.spendPub);
      if expected.None? { return None; }
      if lib.encode(expected.value) == job.tx.vout[i].key.value {
        if ScanAmount(lib, job, R, i).None? { return None; }
        var output := Owned(lib, job, R, i);
        PrefixTwice(results, output, ScanFrom(lib, job, R, d8, i + 1));
        results := results + [output];
      }
    }
    assert results + [] == results;
    return Some(results);
  }

  lemma PrefixTwice(done: seq<Scanned>, output: Scanned, rest: Option<seq<Scanned>>)
    ensures Prefixed(done, Prefixed([output], rest)) == Prefixed(done + [output], rest)
  {
    assert rest.Some? ==> done + ([output] + rest.value) == done + [output] + rest.value;
  }

  /** These are owned outputs from i on, each as it is reported, in order. */
  ghost predicate Reported(lib: MoneroLib, job: ScanJob, txPubKey: Bytes, d8: Bytes, i: nat, r: seq<Scanned>) {
    && (forall k :: 0 <= k < |r| ==>
          && i <= r[k].index && OwnsOutput(lib, job.tx, d8, job.spendPub, r[k].index)
          && ScanAmount(lib, job, txPubKey, r[k].index).Some?
          && r[k] == Owned(lib, job, txPubKey, r[k].index))
    && (forall j, k :: 0 <= j < k < |r| ==> r[j].index < r[k].index)
  }

  lemma ReportedFirst(lib: MoneroLib, job: ScanJob, txPubKey: Bytes, d8: Bytes, i: nat, rest: seq<Scanned>)
    requires Reported(lib, job, txPubKey, d8, i + 1, rest)
    ensures Reported(lib, job, txPubKey, d8, i, rest)
    ensures OwnsOutput(lib, job.tx, d8, job.spendPub, i) && ScanAmount(lib, job, txPubKey, i).Some? ==>
      Reported(lib, job, txPubKey, d8, i, [Owned(lib, job, txPubKey, i)] + rest)
  {
    hide ScanAmount, ExpectedKey, WasmMask;
  }

  /** Every owned output from i on is among these. */
  ghost predicate AllFound(lib: MoneroLib, job: ScanJob, d8: Bytes, i: nat, r: seq<Scanned>) {
    forall j :: i <= j && OwnsOutput(lib, job.tx, d8, job.spendPub, j) ==> exists k :: 0 <= k < |r| && r[k].index == j
  }

  lemma AllFoundFirst(lib: MoneroLib, job: ScanJob, d8: Bytes, i: nat, rest: seq<Scanned>, o: Scanned)
    requires AllFound(lib, job, d8, i + 1, rest) && o.index == i
    ensures AllFound(lib, job, d8, i, [o] + rest)
    ensures !OwnsOutput(lib, job.tx, d8, job.spendPub, i) ==> AllFound(lib, job, d8, i, rest)
  {
    hide OwnsOutput;
    var r := [o] + rest;
    forall j | i <= j && OwnsOutput(lib, job.tx, d8, job.spendPub, j)
      ensures exists k :: 0 <= k < |r| && r[k].index == j
    {
      if j == i {
        assert r[0].index == j;
      } else {
        var k :| 0 <= k < |rest| && rest[k].index == j;
        assert r[k + 1].index == j;
      }
    }
  }

  /** The scan returns exactly the outputs that pay the spend key, each once and in order. */
  lemma {:induction false} ScanFindsExactly(lib: MoneroLib, job: ScanJob, txPubKey: Bytes, d8: Bytes, i: nat)
    requires ScanFrom(lib, job, txPubKey, d8, i).Some?
    ensures var r := ScanFrom(lib, job, txPubKey, d8, i).value;
            && (forall k :: 0 <= k < |r| ==>
                  && i <= r[k].index && OwnsOutput(lib, job.tx, d8, job.spendPub, r[k].index)
                  && ScanAmount(lib, job, txPubKey, r[k].index).Some?
                  && r[k] == Owned(lib, job, txPubKey, r[k].index))
            && (forall j, k :: 0 <= j < k < |r| ==> r[j].index < r[k].index)
            && (forall j :: i <= j && OwnsOutput(lib, job.tx, d8, job.spendPub, j) ==>
                  exists k :: 0 <= k < |r| && r[k].index == j)
  {
    ScanReports(lib, job, txPubKey, d8, i);
    hide ScanFrom, ScanAmount, OwnsOutput, WasmMask;
  }

  lemma {:induction false} ScanReports(lib: MoneroLib, job: ScanJob, txPubKey: Bytes, d8: Bytes, i: nat)
    requires ScanFrom(lib, job, txPubKey, d8, i).Some?
    ensures Reported(lib, job, txPubKey, d8, i, ScanFrom(lib, job, txPubKey, d8, i).value)
    ensures AllFound(lib, job, d8, i, ScanFrom(lib, job, txPubKey, d8, i).value)
    decreases |job.tx.vout| - i
  {
    hide ScanAmount, ExpectedKey, WasmMask, Reported, AllFound;
    if i >= |job.tx.vout| {
      NothingReported(lib, job, txPubKey, d8, i);
    } else {
      var rest := ScanFrom(lib, job, txPubKey, d8, i + 1);
      if rest.Some? {
        ScanReports(lib, job, txPubKey, d8, i + 1);
        ReportedFirst(lib, job, txPubKey, d8, i, rest.value);
        AllFoundFirst(lib, job, d8, i, rest.value, Scanned([], [], i, 0, 0, []));
        if OwnsOutput(lib, job.tx, d8, job.spendPub, i) {
          AllFoundFirst(lib, job, d8, i, rest.value, Owned(lib, job, txPubKey, i));
        }
      }
    }
  }

  lemma NothingReported(lib: MoneroLib, job: ScanJob, txPubKey: Bytes, d8: Bytes, i: nat)
    requires i >= |job.tx.vout|
    ensures Reported(lib, job, txPubKey, d8, i, []) && AllFound(lib, job, d8, i, [])
  {
  }

  /** What the scan reports of an output, field by field: its key and the transaction's, the global index
      the node gave for it or 0, the amount the lock check would decrypt, and the blinding factor derived
      from its shared scalar, empty when the view key is not canonical. */
  lemma ScannedInFull(lib: MoneroLib, job: ScanJob, k: nat)
    requires |job.tx.vout| < TWO32 && Scan(lib, job).Some? && k < |Scan(lib, job).value|
    ensures var o := Scan(lib, job).value[k];
      && o.index < |job.tx.vout| && job.tx.vout[o.index].key == Some(o.key)
      && TxPubKey(job.tx.extra) == Some(o.txPubKey)
      && o.globalIndex == (if o.index < |job.globals| then job.globals[o.index] else 0)
      && ViewKeySecret(lib, ScalarOf(job.viewKey), o.txPubKey).Some?
      && var d8 := ViewKeySecret(lib, ScalarOf(job.viewKey), o.txPubKey).value;
      && o.amount == AmountOf(lib, d8, o.index, job.tx.ecdh)
      && o.mask == if |job.viewKey| == 32 && ValueLE(job.viewKey) < GROUP_ORDER
                   then BlindingFactor(lib, DeriveScalar(lib, d8, o.index)) else []
  {
    hide TxPubKey, ScanFrom, ViewKeySecret, AmountOf, ScanAmount, DeriveScalar, BlindingFactor, WasmMask;
    var R := TxPubKey(job.tx.extra).value;
    var d8 := ViewKeySecret(lib, ScalarOf(job.viewKey), R).value;
    ScanFindsExactly(lib, job, R, d8, 0);
    var i := Scan(lib, job).value[k].index;
    ScanAmountIsLockAmount(lib, job, R, d8, i);
    TxPubKeyHas32(job.tx.extra);
    MaskIsBlindingFactor(lib, job, R, d8, i);
  }

  /** Hs("commitment_mask" || h) for the shared scalar h, as 32 bytes. */
  function BlindingFactor(lib: MoneroLib, h: Point): Bytes {
    ScalarBytes(ValueLE(lib.keccak(MASK_PREFIX + ScalarBytes(h))))
  }

  lemma PrefixesAreAscii()
    ensures AMOUNT_PREFIX == Ascii("amount") && MASK_PREFIX == Ascii("commitment_mask")
  {
  }

  lemma MaskIsBlindingFactor(lib: MoneroLib, job: ScanJob, txPubKey: Bytes, d8: Bytes, i: nat)
    requires i < TWO32 && |txPubKey| == 32 && ViewKeySecret(lib, ScalarOf(job.viewKey), txPubKey) == Some(d8)
    ensures WasmMask(lib, job.viewKey, txPubKey, i) ==
      if |job.viewKey| == 32 && ValueLE(job.viewKey) < GROUP_ORDER
      then Some(BlindingFactor(lib, DeriveScalar(lib, d8, i))) else None
  {
    hide EncodeLE, ValueLE;
    if ValueLE(job.viewKey) < GROUP_ORDER {
      ModuloUnique(ValueLE(job.viewKey), ValueLE(job.viewKey), 0);
      assert lib.decode(txPubKey).Some?;
      assert d8 == lib.encode(Times8((ValueLE(job.viewKey) * lib.decode(txPubKey).value) % GROUP_ORDER));
      var h := DeriveScalar(lib, d8, i);
      ModuloUnique(h, h, 0);
      if |job.viewKey| == 32 {
        assert WasmScalar(lib, job.viewKey, txPubKey, i) == Some(h);
      }
    }
  }

  /** Whether an output pays the key B, in full: its key is h*G + B for the scalar h that hashing 8*v*R and
      the output's index gives, and h is not zero. */
  lemma OwnedKeyInFull(lib: MoneroLib, tx: MoneroTx, v: Point, spendPub: Point, txPubKey: Bytes, i: nat)
    requires i < TWO32 && ViewKeySecret(lib, v, txPubKey).Some?
    ensures lib.decode(txPubKey).Some?
    ensures var R := lib.decode(txPubKey).value;
      var h := ValueLE(lib.keccak(lib.encode((8 * (v * R)) % GROUP_ORDER) + Leb(i))) % GROUP_ORDER;
      OwnsOutput(lib, tx, ViewKeySecret(lib, v, txPubKey).value, spendPub, i) <==>
        i < |tx.vout| && h != 0 && tx.vout[i].key == Some(lib.encode((h + spendPub) % GROUP_ORDER))
  {
    hide ValueLE, Leb;
    var R := lib.decode(txPubKey).value;
    EightTimes(v * R);
    var d8 := lib.encode((8 * (v * R)) % GROUP_ORDER);
    assert ViewKeySecret(lib, v, txPubKey).value == d8;
    TimesBase(DeriveScalar(lib, d8, i));
  }

  lemma EightTimes(n: int)
    ensures (8 * (n % GROUP_ORDER)) % GROUP_ORDER == (8 * n) % GROUP_ORDER
  {
    var q, r := n / GROUP_ORDER, n % GROUP_ORDER;
    ModuloUnique(8 * n, (8 * r) % GROUP_ORDER, 8 * q + (8 * r) / GROUP_ORDER);
  }

  predicate OwnsOutput(lib: MoneroLib, tx: MoneroTx, d8: Bytes, spendPub: Point, i: nat) {
    && i < |tx.vout|
    && ExpectedKey(lib, d8, i, spendPub).Some?
    && tx.vout[i].key == Some(lib.encode(ExpectedKey(lib, d8, i, spendPub).value))
  }

  /** What the scan needs of an output: a derived scalar that is not zero when it has a key, and when it is
      owned and has an encrypted amount, one of eight bytes and a canonical view key of 32 to decrypt it. */
  predicate Scannable(lib: MoneroLib, job: ScanJob, d8: Bytes, j: nat) {
    j < |job.tx.vout| && job.tx.vout[j].key.Some? ==>
      && DeriveScalar(lib, d8, j) != 0
      && (OwnsOutput(lib, job.tx, d8, job.spendPub, j) && j < |job.tx.ecdh| ==>
            |job.viewKey| == 32 && ValueLE(job.viewKey) < GROUP_ORDER && |job.tx.ecdh[j]| == 8)
  }

  lemma {:induction false} ScanFromSucceedsExactly(lib: MoneroLib, job: ScanJob, txPubKey: Bytes, d8: Bytes, i: nat)
    requires |txPubKey| == 32 && lib.decode(txPubKey).Some?
    ensures ScanFrom(lib, job, txPubKey, d8, i).Some? <==>
      forall j :: i <= j < |job.tx.vout| ==> Scannable(lib, job, d8, j)
    decreases |job.tx.vout| - i
  {
    hide WasmMask, Scannable, ExpectedKey, ScanAmount;
    if i < |job.tx.vout| {
      ScanFromSucceedsExactly(lib, job, txPubKey, d8, i + 1);
      ScannableExactly(lib, job, txPubKey, d8, i);
    }
  }

  lemma ScannableExactly(lib: MoneroLib, job: ScanJob, txPubKey: Bytes, d8: Bytes, i: nat)
    requires i < |job.tx.vout| && |txPubKey| == 32 && lib.decode(txPubKey).Some?
    ensures Scannable(lib, job, d8, i) <==>
      || job.tx.vout[i].key.None?
      || (ExpectedKey(lib, d8, i, job.spendPub).Some? &&
          (OwnsOutput(lib, job.tx, d8, job.spendPub, i) ==> ScanAmount(lib, job, txPubKey, i).Some?))
  {
    hide ValueLE, Unmask, EncodeLE, DeriveScalar;
    TimesBase(DeriveScalar(lib, d8, i));
  }

  lemma {:induction false} TxPubKeyHas32(extra: Bytes)
    ensures TxPubKey(extra).Some? ==> |TxPubKey(extra).value| == 32
  {
    if |extra| >= 33 && extra[0] != 1 { TxPubKeyHas32(extra[1..]); }
  }

  /** The scan returns a list, of any length, if and only if it finds no shared secret or can scan every
      output; otherwise it throws. */
  lemma ScanSucceedsExactly(lib: MoneroLib, job: ScanJob)
    ensures Scan(lib, job).Some? <==>
      (TxPubKey(job.tx.extra).Some?
       && ViewKeySecret(lib, ScalarOf(job.viewKey), TxPubKey(job.tx.extra).value).Some? ==>
         var d8 := ViewKeySecret(lib, ScalarOf(job.viewKey), TxPubKey(job.tx.extra).value).value;
         forall j :: 0 <= j < |job.tx.vout| ==> Scannable(lib, job, d8, j))
  {
    hide TxPubKey, ScanFrom, Scannable;
    TxPubKeyHas32(job.tx.extra);
    if TxPubKey(job.tx.extra).Some? {
      var R := TxPubKey(job.tx.extra).value;
      var d8 := ViewKeySecret(lib, ScalarOf(job.viewKey), R);
      if d8.Some? { ScanFromSucceedsExactly(lib, job, R, d8.value, 0); }
    }
  }

  /** The private key of an output and the guard `x*G == P` of key-image derivation. */
  function OneTimePrivateKey(lib: MoneroLib, viewKey: Point, spendKey: Point, R: Point, index: nat): Point {
    var derivation := Times8((viewKey * R) % GROUP_ORDER);
    (DerivationToScalar(lib, derivation, index) + spendKey) % GROUP_ORDER
  }

  predicate KeyImageGuard(lib: MoneroLib, viewKey: Point, spendKey: Point, txPubKey: Bytes, index: nat, key: Bytes) {
    && lib.decode(txPubKey).Some?
    && var x := OneTimePrivateKey(lib, viewKey, spendKey, lib.decode(txPubKey).value, index);
    && lib.encode((x * BASE) % GROUP_ORDER) == key
  }

  /** The transaction-key and view-key branches of the lock check reach the same secret. */
  lemma SecretBranchesAgree(lib: MoneroLib, params: LockParams, txPubKey: Bytes)
    requires PointCoding(lib)
    requires LockSecret(lib, params, txPubKey).Some?
    ensures LockSecret(lib, params, txPubKey) == ViewKeySecret(lib, ScalarOf(params.viewKey), txPubKey)
  {
    if params.txKey.Some? {
      var v, r := ScalarOf(params.viewKey), ScalarOf(params.txKey.value);
      TimesBase(v);
      TimesBase(r);
      hide Multiply, ValueLE;
      assert lib.decode(txPubKey) == Some(r);
      MultiplyCommutes(r, v);
    }
  }

  /** When the lock check has a shared secret: the sweep has one, and a transaction key, if Alice gave one, is
      a scalar whose point is the transaction's public key. */
  lemma LockSecretExactly(lib: MoneroLib, params: LockParams, txPubKey: Bytes)
    requires PointCoding(lib)
    ensures LockSecret(lib, params, txPubKey) ==
      if params.txKey.Some? && (ScalarOf(params.txKey.value) == 0
                                || lib.encode(ScalarOf(params.txKey.value)) != txPubKey) then None
      else ViewKeySecret(lib, ScalarOf(params.viewKey), txPubKey)
  {
    var v := ScalarOf(params.viewKey);
    TimesBase(v);
    if params.txKey.Some? {
      var r := ScalarOf(params.txKey.value);
      TimesBase(r);
      hide ValueLE, Times8, ScalarOf;
      if r != 0 && lib.encode(r) == txPubKey {
        assert lib.decode(txPubKey) == Some(r);
        if v != 0 { MultiplyCommutes(r, v); }
      }
    }
  }

  lemma MultiplyCommutes(r: Point, v: Point)
    requires r != 0 && v != 0
    ensures Multiply(r, v) == Multiply(v, r)
  {
    assert r * v == v * r;
  }

  /** An output found for a spend key passes the guard with that key: (Hs + s)*G = P. */
  lemma OwnedOutputPassesGuard(lib: MoneroLib, tx: MoneroTx, v: Point, s: Point, txPubKey: Bytes, index: nat)
    requires ViewKeySecret(lib, v, txPubKey).Some? && index < TWO32
    requires OwnsOutput(lib, tx, ViewKeySecret(lib, v, txPubKey).value, s, index)
    ensures KeyImageGuard(lib, v, s, txPubKey, index, tx.vout[index].key.value)
  {
    var d8 := ViewKeySecret(lib, v, txPubKey).value;
    var R := lib.decode(txPubKey).value;
    var h := DeriveScalar(lib, d8, index);
    TimesBase(h);
    assert DerivationToScalar(lib, Times8((v * R) % GROUP_ORDER), index) == h;
    var x := OneTimePrivateKey(lib, v, s, R, index);
    assert x * BASE == x;
    ModuloUnique(x, x, 0);
  }

  /** An output that the scan finds although the lock check passes over it, because it is time-locked. */
  predicate LockedPayment(lib: MoneroLib, tx: MoneroTx, d8: Bytes, spendPub: Point, j: nat) {
    OwnsOutput(lib, tx, d8, spendPub, j) && Locked(tx.vout[j].unlockTime)
  }

  /** What the lock check verified before the redeem signature is released can be spent with the combined
      key. The sweep's scan finds it, with the same amount, if and only if it can scan every output: if
      not, it throws. It is the output the scan finds first if and only if no time-locked output before it
      pays the key. */
  lemma VerifiedLockIsSpendable(lib: MoneroLib, fetched: Option<Fetched>, params: LockParams, sA: Bytes, sB: Bytes,
                                SA: Point, SB: Point, globals: seq<nat>)
    requires PointCoding(lib)
    requires params.spendPub == Some(Add(SA, SB)) && SB == ScalarOf(sB)
    requires Judge(lib, fetched, params).Verified? && |fetched.value.tx.vout| < TWO32
    requires CombineShares(sA, sB, SA).Ok?
    ensures var keys := CombineShares(sA, sB, SA).value;
            var tx, i := fetched.value.tx, Judge(lib, fetched, params).index;
            var job := ScanJob(tx, globals, params.viewKey, keys.spendPub);
            && TxPubKey(tx.extra).Some? && i < |tx.vout| && tx.vout[i].key.Some?
            && var R := TxPubKey(tx.extra).value;
            && KeyImageGuard(lib, ScalarOf(params.viewKey), ScalarOf(keys.spendKey), R, i, tx.vout[i].key.value)
            && ViewKeySecret(lib, ScalarOf(params.viewKey), R).Some?
            && var d8 := ViewKeySecret(lib, ScalarOf(params.viewKey), R).value;
            && (Scan(lib, job).Some? <==> forall j :: 0 <= j < |tx.vout| ==> Scannable(lib, job, d8, j))
            && (Scan(lib, job).Some? ==>
                  && var found := Scan(lib, job).value;
                  && ScanAmount(lib, job, R, i).Some? && Owned(lib, job, R, i) in found
                  && Owned(lib, job, R, i).amount == Judge(lib, fetched, params).amount
                  && found != []
                  && (found[0] == Owned(lib, job, R, i) <==>
                        forall j :: 0 <= j < i ==> !LockedPayment(lib, tx, d8, keys.spendPub, j)))
  {
    hide AmountOf, SumOfScalars, TxPubKey, Judge, ScanAmount, WasmMask, KeyImageGuard, ScanFrom, OwnsOutput, PaysLock;
    hide LockedPayment, ViewKeySecret, Owned, Scannable;
    SweepKeyOpensLock(sA, sB, SA, SB);
    VerifiedOutputIsOwned(lib, fetched, params);
    var keys := CombineShares(sA, sB, SA).value;
    var tx, i := fetched.value.tx, Judge(lib, fetched, params).index;
    var job := ScanJob(tx, globals, params.viewKey, keys.spendPub);
    var R := TxPubKey(tx.extra).value;
    var d8 := ViewKeySecret(lib, ScalarOf(params.viewKey), R).value;
    ModuloUnique(ValueLE(keys.spendKey), keys.spendPub, 0);
    OwnedOutputPassesGuard(lib, tx, ScalarOf(params.viewKey), keys.spendPub, R, i);
    ScanSucceedsExactly(lib, job);
    if Scan(lib, job).Some? {
      OwnedOutputIsScanned(lib, job, R, d8, i);
      HeadIsFirst(lib, job, R, d8, i);
    }
  }

  /** What a verdict says in the sweep's terms: the output pays the key under the view-key secret, and
      any earlier output that does is time-locked. */
  lemma VerifiedOutputIsOwned(lib: MoneroLib, fetched: Option<Fetched>, params: LockParams)
    requires PointCoding(lib) && Judge(lib, fetched, params).Verified?
    ensures fetched.Some? && params.spendPub.Some? && TxPubKey(fetched.value.tx.extra).Some?
    ensures ViewKeySecret(lib, ScalarOf(params.viewKey), TxPubKey(fetched.value.tx.extra).value).Some?
    ensures var r, tx, B := Judge(lib, fetched, params), fetched.value.tx, params.spendPub.value;
      var d8 := ViewKeySecret(lib, ScalarOf(params.viewKey), TxPubKey(tx.extra).value).value;
      && r.index < |tx.vout| && tx.vout[r.index].key.Some? && OwnsOutput(lib, tx, d8, B, r.index)
      && r.amount == AmountOf(lib, d8, r.index, tx.ecdh)
      && forall j :: 0 <= j < r.index ==> (OwnsOutput(lib, tx, d8, B, j) <==> LockedPayment(lib, tx, d8, B, j))
  {
    hide AmountOf, TxPubKey, ViewKeySecret, ExpectedKey;
    VerifiedLockIsReal(lib, fetched, params);
    var tx := fetched.value.tx;
    SecretBranchesAgree(lib, params, TxPubKey(tx.extra).value);
    var d8 := ViewKeySecret(lib, ScalarOf(params.viewKey), TxPubKey(tx.extra).value).value;
    JudgeFromVerified(lib, tx, d8, params.spendPub.value, params.expectedAmount, 0);
    forall j | 0 <= j < Judge(lib, fetched, params).index
      ensures OwnsOutput(lib, tx, d8, params.spendPub.value, j) <==>
        LockedPayment(lib, tx, d8, params.spendPub.value, j)
    {
      assert !PaysLock(lib, tx, d8, params.spendPub.value, j);
    }
  }

  lemma OwnedOutputIsScanned(lib: MoneroLib, job: ScanJob, txPubKey: Bytes, d8: Bytes, i: nat)
    requires i < TWO32 && ViewKeySecret(lib, ScalarOf(job.viewKey), txPubKey) == Some(d8)
    requires i < |job.tx.vout| && job.tx.vout[i].key.Some? && OwnsOutput(lib, job.tx, d8, job.spendPub, i)
    requires ScanFrom(lib, job, txPubKey, d8, 0).Some?
    ensures ScanAmount(lib, job, txPubKey, i).Some?
    ensures Owned(lib, job, txPubKey, i) in ScanFrom(lib, job, txPubKey, d8, 0).value
    ensures Owned(lib, job, txPubKey, i).amount == AmountOf(lib, d8, i, job.tx.ecdh)
  {
    hide ScanFrom, ScanAmount, OwnsOutput, AmountOf, WasmMask, ViewKeySecret;
    ScanFindsExactly(lib, job, txPubKey, d8, 0);
    var found := ScanFrom(lib, job, txPubKey, d8, 0).value;
    var k :| 0 <= k < |found| && found[k].index == i;
    ScanAmountIsLockAmount(lib, job, txPubKey, d8, i);
  }

  /** The scan begins with an output exactly when it owns that output and no earlier one. */
  lemma HeadIsFirst(lib: MoneroLib, job: ScanJob, txPubKey: Bytes, d8: Bytes, i: nat)
    requires ScanFrom(lib, job, txPubKey, d8, 0).Some? && OwnsOutput(lib, job.tx, d8, job.spendPub, i)
    ensures var found := ScanFrom(lib, job, txPubKey, d8, 0).value;
      && found != []
      && (found[0].index == i <==> forall j :: 0 <= j < i ==> !OwnsOutput(lib, job.tx, d8, job.spendPub, j))
      && i < |job.tx.vout| && job.tx.vout[i].key.Some? && ScanAmount(lib, job, txPubKey, i).Some?
      && (found[0].index == i <==> found[0] == Owned(lib, job, txPubKey, i))
  {
    hide ScanFrom, ScanAmount, ExpectedKey, WasmMask;
    ScanFindsExactly(lib, job, txPubKey, d8, 0);
    var found := ScanFrom(lib, job, txPubKey, d8, 0).value;
    var k :| 0 <= k < |found| && found[k].index == i;
    if exists j :: 0 <= j < i && OwnsOutput(lib, job.tx, d8, job.spendPub, j) {
      var j :| 0 <= j < i && OwnsOutput(lib, job.tx, d8, job.spendPub, j);
      var l :| 0 <= l < |found| && found[l].index == j;
      assert found[0].index <= found[l].index;
    } else {
      assert OwnsOutput(lib, job.tx, d8, job.spendPub, found[0].index);
    }
  }
}
