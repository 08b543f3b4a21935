/** One attempt at the sweep, from the fetched lock transaction to the data handed to the signer, and
    whether the output it spends is the one the lock check verified. */
module LockSweep {
  import opened Wrappers
  import opened Bitcoin
  import opened Varint
  import opened Scalars
  import opened MoneroKeys
  import opened MoneroLock
  import opened MoneroSpend
  import opened RingBytes
  import opened Sorting
  import opened Sweep

  /** Pedersen commitments: the coding of mask*G + amount*H. */
  type Commit = (Bytes, nat) -> Bytes

  datatype AttemptFault = TxNotFetched | ScanThrew | Refused(fault: SweepFault)

  /** The lock transaction as the sweep fetches it, with the global indices of its outputs. */
  datatype LockTx = LockTx(tx: MoneroTx, globals: seq<nat>)

  /** The combined keys of a sweep. */
  datatype Keys = Keys(viewKey: Bytes, spendPub: Point)

  /** The library calls of the construction: the Rust check recomputes the mask of the output. */
  function Calls(lib: MoneroLib, decodes: Bytes -> bool, commit: Commit, viewKey: Bytes): SweepLib {
    SweepLib(decodes, (o: Scanned, commitment: Bytes) => CommitmentOpens(lib, commit, viewKey, o, commitment))
  }

  predicate CommitmentOpens(lib: MoneroLib, commit: Commit, viewKey: Bytes, o: Scanned, commitment: Bytes) {
    var mask := WasmMask(lib, viewKey, o.txPubKey, o.index);
    mask.Some? && commit(mask.value, o.amount) == commitment
  }

  function Attempt(lib: MoneroLib, decodes: Bytes -> bool, commit: Commit, fetched: Option<LockTx>, keys: Keys,
                   receiveAddress: string, a: Answers): Result<ConstructionData, AttemptFault>
  {
    if fetched.None? then Err(TxNotFetched)
    else
      var scanned := Scan(lib, ScanJob(fetched.value.tx, fetched.value.globals, keys.viewKey, keys.spendPub));
      if scanned.None? then Err(ScanThrew)
      else
        match Construct(Calls(lib, decodes, commit, keys.viewKey), scanned.value, receiveAddress, a)
        case Err(fault) => Err(Refused(fault))
        case Ok(data) => Ok(data)
  }

  method ScanAndBuild(lib: MoneroLib, decodes: Bytes -> bool, commit: Commit, fetched: Option<LockTx>, keys: Keys,
                      receiveAddress: string, a: Answers) returns (r: Result<ConstructionData, AttemptFault>)
    ensures r == Attempt(lib, decodes, commit, fetched, keys, receiveAddress, a)
  {
    hide Scan, Construct;
    if fetched.None? { return Err(TxNotFetched); }
    var job := ScanJob(fetched.value.tx, fetched.value.globals, keys.viewKey, keys.spendPub);
    var scanned := ScanTransactionOutputs(lib, job);
    if scanned.None? { return Err(ScanThrew); }
    var data := BuildSweep(Calls(lib, decodes, commit, keys.viewKey), scanned.value, receiveAddress, a);
    if data.Err? { return Err(Refused(data.error)); }
    return Ok(data.value);
  }

  /** Data that reaches the signer spends the first output the scan found, with a mask and an amount that
      open the commitment of the real ring member. */
  lemma AttemptSpendsFirstFound(lib: MoneroLib, decodes: Bytes -> bool, commit: Commit, fetched: LockTx, keys: Keys,
                                receiveAddress: string, a: Answers)
    requires Attempt(lib, decodes, commit, Some(fetched), keys, receiveAddress, a).Ok?
    ensures var found := Scan(lib, ScanJob(fetched.tx, fetched.globals, keys.viewKey, keys.spendPub));
      var data := Attempt(lib, decodes, commit, Some(fetched), keys, receiveAddress, a).value;
      && found.Some? && found.value != [] && |data.inputs| == 1
      && var input, o := data.inputs[0], found.value[0];
      && input.oneTimeKey == o.key && input.txPubKey == o.txPubKey && input.outputIndex == o.index
      && input.amount == o.amount && input.mask == o.mask
      && data.destination.address == receiveAddress && data.destination.amount + data.fee == o.amount
      && input.realIndex < |input.ring|
      && CommitmentOpens(lib, commit, keys.viewKey, o, input.ring[input.realIndex].commitment)
  {
    hide Scan, Construct, SpendsFrom, WasmMask;
    var found := Scan(lib, ScanJob(fetched.tx, fetched.globals, keys.viewKey, keys.spendPub)).value;
    var calls := Calls(lib, decodes, commit, keys.viewKey);
    SignedDataIsSound(calls, found, receiveAddress, a);
    var data := Construct(calls, found, receiveAddress, a).value;
    var j :| 0 <= j < 50 && SpendsFrom(calls, a, j, found[0], data.inputs[0]);
    InputTakesOutput(calls, a, j, found[0], data.inputs[0]);
  }

  lemma InputTakesOutput(lib: SweepLib, a: Answers, j: nat, o: Scanned, input: SweepInput)
    requires SpendsFrom(lib, a, j, o, input)
    ensures input.oneTimeKey == o.key && input.txPubKey == o.txPubKey && input.outputIndex == o.index
    ensures input.amount == o.amount && input.mask == o.mask
  {
  }

  /** The bytes written for the input of signed data open the output they name: their key offset and the
      spend key, times the base point, are their key. */
  lemma SignedBytesOpenOutput(lib: MoneroLib, decodes: Bytes -> bool, commit: Commit, fetched: LockTx, keys: Keys,
                              receiveAddress: string, a: Answers, input: SweepInput, o: OutputWithDecoys)
    requires Attempt(lib, decodes, commit, Some(fetched), keys, receiveAddress, a).Ok? && |fetched.tx.vout| < TWO32
    requires Attempt(lib, decodes, commit, Some(fetched), keys, receiveAddress, a).value.inputs == [input]
    requires InputAccepted(lib, input, keys.viewKey) && Meant(lib, input, keys.viewKey, o)
    ensures lib.encode(((ValueLE(o.keyOffset) + keys.spendPub) * BASE) % GROUP_ORDER) == o.key
  {
    hide Attempt, Scan, CommitmentOpens, InputAccepted, Meant, TxPubKey, ViewKeySecret, OwnsOutput, KeyOffset, Sort;
    AttemptSpendsFirstFound(lib, decodes, commit, fetched, keys, receiveAddress, a);
    var job := ScanJob(fetched.tx, fetched.globals, keys.viewKey, keys.spendPub);
    ScannedInFull(lib, job, 0);
    FirstIsOwned(lib, job);
    WrittenOffsetOpensOutput(lib, fetched.tx, input, keys.viewKey, keys.spendPub, o);
  }

  lemma FirstIsOwned(lib: MoneroLib, job: ScanJob)
    requires Scan(lib, job).Some? && Scan(lib, job).value != []
    ensures var o := Scan(lib, job).value[0];
      && ViewKeySecret(lib, ScalarOf(job.viewKey), o.txPubKey).Some?
      && OwnsOutput(lib, job.tx, ViewKeySecret(lib, ScalarOf(job.viewKey), o.txPubKey).value, job.spendPub, o.index)
  {
    hide TxPubKey, ViewKeySecret, ScanFrom, OwnsOutput, ScanAmount, WasmMask;
    var R := TxPubKey(job.tx.extra).value;
    var d8 := ViewKeySecret(lib, ScalarOf(job.viewKey), R).value;
    ScanFindsExactly(lib, job, R, d8, 0);
  }

  /** End to end, for one lock transaction and one view key. The input signed spends the output the lock
      check verified if and only if no time-locked output before that one pays the key. It then carries
      the verified amount, all of it but the fee goes to the receive address, and the combined key passes
      the guard of the key image. Otherwise a time-locked output is spent instead. */
  lemma SignedInputIsVerifiedOutput(lib: MoneroLib, decodes: Bytes -> bool, commit: Commit, checked: Option<Fetched>,
                                    params: LockParams, sA: Bytes, sB: Bytes, SA: Point, SB: Point, globals: seq<nat>,
                                    receiveAddress: string, a: Answers)
    requires PointCoding(lib)
    requires params.spendPub == Some(Add(SA, SB)) && SB == ScalarOf(sB)
    requires Judge(lib, checked, params).Verified? && |checked.value.tx.vout| < TWO32
    requires CombineShares(sA, sB, SA).Ok?
    requires Attempt(lib, decodes, commit, Some(LockTx(checked.value.tx, globals)),
                     Keys(params.viewKey, CombineShares(sA, sB, SA).value.spendPub), receiveAddress, a).Ok?
    ensures var combined := CombineShares(sA, sB, SA).value;
      var tx, verdict := checked.value.tx, Judge(lib, checked, params);
      var data := Attempt(lib, decodes, commit, Some(LockTx(tx, globals)), Keys(params.viewKey, combined.spendPub),
                          receiveAddress, a).value;
      && TxPubKey(tx.extra).Some? && verdict.index < |tx.vout| && |data.inputs| == 1
      && var R, input := TxPubKey(tx.extra).value, data.inputs[0];
      && ViewKeySecret(lib, ScalarOf(params.viewKey), R).Some?
      && var d8 := ViewKeySecret(lib, ScalarOf(params.viewKey), R).value;
      && (input.outputIndex == verdict.index <==>
            forall j :: 0 <= j < verdict.index ==> !LockedPayment(lib, tx, d8, combined.spendPub, j))
      && (if input.outputIndex == verdict.index then
            && input.amount == verdict.amount && tx.vout[verdict.index].key == Some(input.oneTimeKey)
            && input.txPubKey == R
            && data.destination.address == receiveAddress && data.destination.amount + data.fee == verdict.amount
            && KeyImageGuard(lib, ScalarOf(params.viewKey), ScalarOf(combined.spendKey), R, verdict.index,
                             input.oneTimeKey)
          else
            input.outputIndex < verdict.index && LockedPayment(lib, tx, d8, combined.spendPub, input.outputIndex))
  {
    hide Judge, Scan, TxPubKey, ViewKeySecret, CombineShares, LockedPayment, KeyImageGuard, CommitmentOpens, OwnsOutput;
    hide ScanAmount, WasmMask, Attempt;
    var combined := CombineShares(sA, sB, SA).value;
    CombinedOpens(sA, sB, SA, SB);
    var keys := Keys(params.viewKey, combined.spendPub);
    assert checked.Some? by { VerifiedOutputIsOwned(lib, checked, params); }
    var tx := checked.value.tx;
    AttemptSpendsFirstFound(lib, decodes, commit, LockTx(tx, globals), keys, receiveAddress, a);
    VerifiedLockIsSpendable(lib, checked, params, sA, sB, SA, SB, globals);
    VerifiedOutputIsOwned(lib, checked, params);
    FirstFoundIsOwned(lib, ScanJob(tx, globals, params.viewKey, combined.spendPub), Judge(lib, checked, params).index);
  }

  lemma CombinedOpens(sA: Bytes, sB: Bytes, SA: Point, SB: Point)
    requires CombineShares(sA, sB, SA).Ok? && SB == ScalarOf(sB)
    ensures CombineShares(sA, sB, SA).value.spendPub == Add(SA, SB)
  {
    hide SumOfScalars;
    SweepKeyOpensLock(sA, sB, SA, SB);
  }

  /** The first output found is owned, and no later than any other owned output. */
  lemma FirstFoundIsOwned(lib: MoneroLib, job: ScanJob, i: nat)
    requires TxPubKey(job.tx.extra).Some?
    requires ViewKeySecret(lib, ScalarOf(job.viewKey), TxPubKey(job.tx.extra).value).Some?
    requires Scan(lib, job).Some?
    requires OwnsOutput(lib, job.tx, ViewKeySecret(lib, ScalarOf(job.viewKey), TxPubKey(job.tx.extra).value).value,
                        job.spendPub, i)
    ensures var R := TxPubKey(job.tx.extra).value;
      var d8, found := ViewKeySecret(lib, ScalarOf(job.viewKey), R).value, Scan(lib, job).value;
      && found != [] && found[0].index <= i && OwnsOutput(lib, job.tx, d8, job.spendPub, found[0].index)
      && i < |job.tx.vout| && job.tx.vout[i].key.Some? && ScanAmount(lib, job, R, i).Some?
      && (found[0].index == i <==> found[0] == Owned(lib, job, R, i))
  {
    hide TxPubKey, ViewKeySecret, ScanFrom, ScanAmount, OwnsOutput, WasmMask;
    var R := TxPubKey(job.tx.extra).value;
    var d8 := ViewKeySecret(lib, ScalarOf(job.viewKey), R).value;
    HeadIsFirst(lib, job, R, d8, i);
    ScanFindsExactly(lib, job, R, d8, 0);
    var found := Scan(lib, job).value;
    var k :| 0 <= k < |found| && found[k].index == i;
    assert k > 0 ==> found[0].index < found[k].index;
  }

  // ----- an honest lock -----

  /** An honest lock with no time-locked output that pays the key before it: one sweep attempt signs for it
      if and only if the scan can scan every output, the amount covers eleven fees, and the ring found
      has sixteen members with the real one, committing to that amount, among them. */
  lemma HonestLockIsSweptExactly(lib: MoneroLib, decodes: Bytes -> bool, commit: Commit, tx: MoneroTx, r: Point,
                                 v: Point, B: Point, k: nat, amount: nat, viewKey: Bytes, globals: seq<nat>,
                                 receiveAddress: string, a: Answers)
    requires PointCoding(lib) && r != 0 && v != 0 && amount < TWO64 && ScalarOf(viewKey) == v && |tx.vout| < TWO32
    requires HonestLock(lib, tx, r, v, B, k, amount)
    requires forall j :: 0 <= j < k ==> !LockedPayment(lib, tx, HonestSecret(lib, r, v), B, j)
    ensures var job, d8 := ScanJob(tx, globals, viewKey, B), HonestSecret(lib, r, v);
      var ring := Ring(Calls(lib, decodes, commit, viewKey), a, 0, MAX_RING_RETRIES - 1);
      Attempt(lib, decodes, commit, Some(LockTx(tx, globals)), Keys(viewKey, B), receiveAddress, a).Ok? <==>
        && (forall j :: 0 <= j < |tx.vout| ==> Scannable(lib, job, d8, j))
        && 0 < Fee(a.fee) && 11 * Fee(a.fee) <= amount
        && ring.Ok? && |ring.value.1| == 16 && ring.value.0.realIndexInRing < 16
        && var mask := WasmMask(lib, viewKey, lib.encode(r), k);
        && mask.Some? && commit(mask.value, amount) == ring.value.1[ring.value.0.realIndexInRing].mask
  {
    hide Scan, Construct, Ring, Fee, Scannable, WasmMask, HonestLock, HonestSecret, ViewKeySecret, LockedPayment;
    hide TxPubKey, ScalarOf;
    var job := ScanJob(tx, globals, viewKey, B);
    ScanSucceedsExactly(lib, job);
    HonestLockIsFirst(lib, tx, r, v, B, k, amount, viewKey, globals);
    if Scan(lib, job).Some? {
      SweepSignsExactly(Calls(lib, decodes, commit, viewKey), Scan(lib, job).value, receiveAddress, a);
    }
  }

  /** The scan of such a lock, when it does not throw, begins with it and its amount. */
  lemma HonestLockIsFirst(lib: MoneroLib, tx: MoneroTx, r: Point, v: Point, B: Point, k: nat, amount: nat,
                          viewKey: Bytes, globals: seq<nat>)
    requires PointCoding(lib) && r != 0 && v != 0 && amount < TWO64 && ScalarOf(viewKey) == v && |tx.vout| < TWO32
    requires HonestLock(lib, tx, r, v, B, k, amount)
    requires forall j :: 0 <= j < k ==> !LockedPayment(lib, tx, HonestSecret(lib, r, v), B, j)
    ensures TxPubKey(tx.extra) == Some(lib.encode(r))
    ensures ViewKeySecret(lib, ScalarOf(viewKey), lib.encode(r)) == Some(HonestSecret(lib, r, v))
    ensures var found := Scan(lib, ScanJob(tx, globals, viewKey, B));
      found.Some? ==>
        && found.value != [] && found.value[0].txPubKey == lib.encode(r)
        && found.value[0].index == k && found.value[0].amount == amount
  {
    hide ScanFrom, WasmMask, HonestSecret, TxPubKey, ScalarOf, ExpectedKey, ScanAmount, AmountOf, Unmask, EncodeLE;
    hide AmountKey;
    SecretIsHonest(lib, r, v, LockParams(viewKey, Some(B), 0, None));
    hide ViewKeySecret;
    var job, d8, R := ScanJob(tx, globals, viewKey, B), HonestSecret(lib, r, v), lib.encode(r);
    forall j | 0 <= j < k ensures !OwnsOutput(lib, tx, d8, B, j) {
      assert !PaysLock(lib, tx, d8, B, j) && !LockedPayment(lib, tx, d8, B, j);
    }
    if Scan(lib, job).Some? {
      HeadIsFirst(lib, job, R, d8, k);
      ScanAmountIsLockAmount(lib, job, R, d8, k);
      AmountReadsBack(lib, d8, k, tx.ecdh, amount);
    }
  }

  /** An honest lock is verified with a view key written as v + L, and the scan of it throws: the lock
      check reduces the key, the Rust code refuses it. */
  lemma UnreducedViewKeyStopsScan(lib: MoneroLib, tx: MoneroTx, r: Point, v: Point, B: Point, k: nat, amount: nat,
                                  globals: seq<nat>)
    requires PointCoding(lib) && r != 0 && v != 0 && amount < TWO64 && HonestLock(lib, tx, r, v, B, k, amount)
    ensures var viewKey := EncodeLE(v + GROUP_ORDER, 32);
      && Judge(lib, Some(Fetched(tx, 10)), LockParams(viewKey, Some(B), amount, None)) == Verified(k, amount)
      && Scan(lib, ScanJob(tx, globals, viewKey, B)).None?
  {
    hide Scan, TxPubKey, HonestSecret, ExpectedKey, Judge, DeriveScalar, Unmask, AmountKey, EncodeLE, ValueLE, Times8;
    var viewKey := EncodeLE(v + GROUP_ORDER, 32);
    UnreducedKeyReadsBack(v);
    var params, job := LockParams(viewKey, Some(B), amount, None), ScanJob(tx, globals, viewKey, B);
    HonestLockIsVerified(lib, tx, r, v, k, amount, 10, params);
    SecretIsHonest(lib, r, v, params);
    hide ViewKeySecret, ScalarOf;
    ScanSucceedsExactly(lib, job);
    assert OwnsOutput(lib, tx, HonestSecret(lib, r, v), B, k);
    assert !Scannable(lib, job, HonestSecret(lib, r, v), k);
  }

  lemma UnreducedKeyReadsBack(v: Point)
    ensures ValueLE(EncodeLE(v + GROUP_ORDER, 32)) == v + GROUP_ORDER && ScalarOf(EncodeLE(v + GROUP_ORDER, 32)) == v
  {
    hide Pow256, EncodeLE;
    Pow256At32();
    ValueOfEncoding(v + GROUP_ORDER, 32);
    ModuloUnique(v + GROUP_ORDER, v, 1);
  }

  // ----- a lock that is verified and not swept -----

  /** Two outputs that pay the key: a time-locked one of `dust`, then the one the check looks for. */
  function DustFirst(lib: MoneroLib, r: Point, v: Point, B: Point, dust: nat, amount: nat): MoneroTx
    requires Payable(lib, r, v, B)
  {
    var d8 := HonestSecret(lib, r, v);
    MoneroTx(None, [1] + lib.encode(r),
             [Vout(Some(1), Some(lib.encode(ExpectedKey(lib, d8, 0, B).value))),
              Vout(None, Some(lib.encode(ExpectedKey(lib, d8, 1, B).value)))],
             [Unmask(EncodeLE(dust, 8), AmountKey(lib, d8, 0)), Unmask(EncodeLE(amount, 8), AmountKey(lib, d8, 1))])
  }

  predicate Payable(lib: MoneroLib, r: Point, v: Point, B: Point) {
    var d8 := HonestSecret(lib, r, v);
    ExpectedKey(lib, d8, 0, B).Some? && ExpectedKey(lib, d8, 1, B).Some?
  }

  /** For every transaction key, view key and spend key there is a lock that the check verifies at output
      1 with the expected amount, and of which the sweep spends output 0, of any other amount. */
  lemma LockedDustComesFirst(lib: MoneroLib, r: Point, v: Point, B: Point, dust: nat, amount: nat, globals: seq<nat>)
    requires PointCoding(lib) && r != 0 && v != 0 && |lib.encode(r)| == 32 && Payable(lib, r, v, B)
    requires dust < TWO64 && amount < TWO64
    ensures var tx, viewKey := DustFirst(lib, r, v, B, dust, amount), EncodeLE(v, 32);
      && Judge(lib, Some(Fetched(tx, 10)), LockParams(viewKey, Some(B), amount, None)) == Verified(1, amount)
      && var found := Scan(lib, ScanJob(tx, globals, viewKey, B));
      && found.Some? && |found.value| == 2 && found.value[0].index == 0 && found.value[0].amount == dust
  {
    hide AmountOf, EncodeLE, ValueLE, AmountKey, ExpectedKey, Judge, WasmMask, ScanAmount, Times8, Multiply, ScalarOf;
    var tx, viewKey, d8 := DustFirst(lib, r, v, B, dust, amount), EncodeLE(v, 32), HonestSecret(lib, r, v);
    KeyReadsBack(v);
    var params := LockParams(viewKey, Some(B), amount, None);
    assert |tx.ecdh[0]| == 8 && |tx.ecdh[1]| == 8;
    hide TxPubKey, Unmask;
    DustFirstIsHonest(lib, r, v, B, dust, amount);
    HonestLockIsVerified(lib, tx, r, v, 1, amount, 10, params);
    SecretIsHonest(lib, r, v, params);
    hide HonestSecret, ViewKeySecret;
    var job := ScanJob(tx, globals, viewKey, B);
    hide Scan;
    AmountIsDecrypted(lib, job, r, v, 0);
    AmountIsDecrypted(lib, job, r, v, 1);
    ScanAmountIsLockAmount(lib, job, lib.encode(r), d8, 0);
    AmountReadsBack(lib, d8, 0, tx.ecdh, dust);
    ScanOfTwo(lib, job, lib.encode(r), d8);
  }

  lemma ScanOfTwo(lib: MoneroLib, job: ScanJob, R: Bytes, d8: Bytes)
    requires TxPubKey(job.tx.extra) == Some(R) && ViewKeySecret(lib, ScalarOf(job.viewKey), R) == Some(d8)
    requires |job.tx.vout| == 2
    requires OwnsOutput(lib, job.tx, d8, job.spendPub, 0) && OwnsOutput(lib, job.tx, d8, job.spendPub, 1)
    requires ScanAmount(lib, job, R, 0).Some? && ScanAmount(lib, job, R, 1).Some?
    ensures Scan(lib, job) == Some([Owned(lib, job, R, 0), Owned(lib, job, R, 1)])
  {
    hide TxPubKey, ViewKeySecret, ExpectedKey, ScanAmount, WasmMask, Owned;
    assert ScanFrom(lib, job, R, d8, 2) == Some([]);
    var first, second := Owned(lib, job, R, 0), Owned(lib, job, R, 1);
    assert [second] + [] == [second] && [first] + [second] == [first, second];
    assert ScanFrom(lib, job, R, d8, 1) == Some([second]);
  }

  lemma DustFirstIsHonest(lib: MoneroLib, r: Point, v: Point, B: Point, dust: nat, amount: nat)
    requires |lib.encode(r)| == 32 && Payable(lib, r, v, B)
    ensures HonestLock(lib, DustFirst(lib, r, v, B, dust, amount), r, v, B, 1, amount)
  {
    hide EncodeLE, Unmask, AmountKey, ExpectedKey, HonestSecret;
    var tx := DustFirst(lib, r, v, B, dust, amount);
    assert TxPubKey(tx.extra) == Some(lib.encode(r)) by { assert tx.extra[1..33] == lib.encode(r); }
    hide TxPubKey;
    assert MoneroKeys.Locked(tx.vout[0].unlockTime);
  }

  lemma KeyReadsBack(v: Point)
    ensures |EncodeLE(v, 32)| == 32 && ValueLE(EncodeLE(v, 32)) == v && ScalarOf(EncodeLE(v, 32)) == v
  {
    hide Pow256, EncodeLE;
    Pow256At32();
    ValueOfEncoding(v, 32);
    ModuloUnique(v, v, 0);
  }

  lemma AmountIsDecrypted(lib: MoneroLib, job: ScanJob, r: Point, v: Point, i: nat)
    requires PointCoding(lib) && |lib.encode(r)| == 32 && job.viewKey == EncodeLE(v, 32)
    requires i < |job.tx.ecdh| && |job.tx.ecdh[i]| == 8
    ensures ScanAmount(lib, job, lib.encode(r), i).Some?
  {
    hide ValueLE, EncodeLE, Unmask;
    KeyReadsBack(v);
  }

  /** A library for which `LockedDustComesFirst` applies to every nonzero key: no derived scalar is zero. */
  function Toy(): MoneroLib {
    MoneroLib(_ => [1], (p: Point) => EncodeLE(p, 32),
              (b: Bytes) => if ValueLE(b) < GROUP_ORDER then Some(ValueLE(b) as Point) else None)
  }

  lemma ToyCodesPoints()
    ensures PointCoding(Toy()) && forall p: Point :: |Toy().encode(p)| == 32
  {
    hide EncodeLE;
    forall p: Point ensures Toy().decode(Toy().encode(p)) == Some(p) && |Toy().encode(p)| == 32 {
      KeyReadsBack(p);
    }
  }

  /** Such a lock exists: 5 piconero verified, 1 swept. */
  lemma VerifiedLockIsNotSwept()
    ensures var tx, viewKey := DustFirst(Toy(), 1, 1, 2, 1, 5), EncodeLE(1, 32);
      && Judge(Toy(), Some(Fetched(tx, 10)), LockParams(viewKey, Some(2), 5, None)) == Verified(1, 5)
      && var found := Scan(Toy(), ScanJob(tx, [], viewKey, 2));
      && found.Some? && found.value != [] && found.value[0].index == 0 && found.value[0].amount == 1
  {
    hide EncodeLE, Judge, Scan;
    ToyCodesPoints();
    ModuloUnique(1, 1, 0);
    LockedDustComesFirst(Toy(), 1, 1, 2, 1, 5, []);
  }

  /** A lock that is verified and on which the scan throws: the same one, with the view key 1 as 1 + L. */
  lemma VerifiedLockIsNotScanned()
    ensures var tx, viewKey := DustFirst(Toy(), 1, 1, 2, 1, 5), EncodeLE(1 + GROUP_ORDER, 32);
      && Judge(Toy(), Some(Fetched(tx, 10)), LockParams(viewKey, Some(2), 5, None)) == Verified(1, 5)
      && Scan(Toy(), ScanJob(tx, [], viewKey, 2)).None?
  {
    hide EncodeLE, Judge, Scan, HonestLock;
    ToyCodesPoints();
    ModuloUnique(1, 1, 0);
    DustFirstIsHonest(Toy(), 1, 1, 2, 1, 5);
    UnreducedViewKeyStopsScan(Toy(), DustFirst(Toy(), 1, 1, 2, 1, 5), 1, 1, 2, 1, 5, []);
  }
}
