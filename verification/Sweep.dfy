/** Building the sweep transaction: the ring retry loop, the commitment check, the fee and the last
    check before signing. Every answer of a node or of the decoy selection is arbitrary. */
module Sweep {
  import opened Wrappers
  import opened Bitcoin
  import opened MoneroKeys
  import opened MoneroSpend
  import opened RingBytes
  import Decoys
  import Offsets
  import Sorting

  /** A ring member as a node reports it. */
  datatype OutputKey = OutputKey(key: Bytes, mask: Bytes, unlocked: Option<bool>)

  /** A selected ring: global output indices, and where the real output stands among them. */
  datatype Choice = Choice(indices: seq<nat>, realIndexInRing: nat)

  /** Point decoding, and whether an output's mask and amount open a commitment. */
  datatype SweepLib = SweepLib(decodes: Bytes -> bool, opens: (Scanned, Bytes) -> bool)

  datatype FeeEstimate = FeeEstimate(feePerByte: int, quantizationMask: int)

  /** What the k-th selection and the k-th key fetch answer (nothing when they throw), and the fee estimate. */
  datatype Answers = Answers(
    choices: nat -> Option<Choice>, keys: nat -> Option<seq<OutputKey>>, fee: Option<FeeEstimate>)

  datatype Fault = InvalidKey | IdentityKey | InvalidCommitment | Locked

  datatype Destination = Destination(address: string, amount: int)

  datatype ConstructionData = ConstructionData(
    inputs: seq<SweepInput>, destination: Destination, fee: int, rctType: int)

  datatype Rejection =
    | DestinationMismatch | AmountNotPositive | FeeNotPositive | FeeTooHigh | NoInputs
    | WrongRingSize(input: nat) | RealIndexBeyondRing(input: nat)

  datatype SweepFault =
    | NoOutputs | SelectionFailed | KeysNotFetched | NoValidRing(invalid: nat) | CommitmentMismatch
    | AmountBelowFee | Rejected(reason: Rejection)

  const MAX_RING_RETRIES: nat := 50
  const ESTIMATED_TX_SIZE := 3200
  const FALLBACK_FEE_PER_BYTE := 23_000
  const FALLBACK_MASK := 10_000
  const CLSAG_RING_SIZE: nat := 16
  const PRE_CLSAG_RING_SIZE: nat := 11

  const IDENTITY: Bytes := [1] + seq(31, _ => 0)

  /* ----- ring members ----- */

  function FaultOf(lib: SweepLib, m: OutputKey): Option<Fault> {
    if !lib.decodes(m.key) then Some(InvalidKey)
    else if m.key == IDENTITY then Some(IdentityKey)
    else if !lib.decodes(m.mask) then Some(InvalidCommitment)
    else if m.unlocked == Some(false) then Some(Locked)
    else None
  }

  /** The members to be replaced, by position. */
  function Faults(lib: SweepLib, ms: seq<OutputKey>): seq<(nat, Fault)> {
    if ms == [] then []
    else
      var last := |ms| - 1;
      Faults(lib, ms[..last])
      + if FaultOf(lib, ms[last]).Some? then [(last, FaultOf(lib, ms[last]).value)] else []
  }

  method ValidateRingMembers(lib: SweepLib, ms: seq<OutputKey>) returns (invalid: seq<(nat, Fault)>)
    ensures invalid == Faults(lib, ms)
  {
    invalid := [];
    for i := 0 to |ms|
      invariant invalid == Faults(lib, ms[..i])
    {
      assert ms[..i + 1][..i] == ms[..i];
      if !lib.decodes(ms[i].key) {
        invalid := invalid + [(i, InvalidKey)];
        continue;
      }
      if ms[i].key == IDENTITY {
        invalid := invalid + [(i, IdentityKey)];
        continue;
      }
      if !lib.decodes(ms[i].mask) {
        invalid := invalid + [(i, InvalidCommitment)];
        continue;
      }
      if ms[i].unlocked == Some(false) {
        invalid := invalid + [(i, Locked)];
      }
    }
    assert ms[..|ms|] == ms;
  }

  /** What each fault says of a member; the checks are made in this order, and the first that fails counts. */
  predicate HasFault(lib: SweepLib, m: OutputKey, f: Fault) {
    match f
    case InvalidKey => !lib.decodes(m.key)
    case IdentityKey => lib.decodes(m.key) && IsIdentity(m.key)
    case InvalidCommitment => lib.decodes(m.key) && !IsIdentity(m.key) && !lib.decodes(m.mask)
    case Locked => Spendable(lib, m.(unlocked := None)) && m.unlocked == Some(false)
  }

  /** A member that may stand in a ring: its key and commitment decode, the key is not the identity, and the
      node does not call it locked. */
  predicate Spendable(lib: SweepLib, m: OutputKey) {
    && lib.decodes(m.key) && !IsIdentity(m.key)
    && lib.decodes(m.mask)
    && m.unlocked != Some(false)
  }

  lemma FaultMeans(lib: SweepLib, m: OutputKey, f: Fault)
    ensures FaultOf(lib, m) == Some(f) <==> HasFault(lib, m, f)
    ensures FaultOf(lib, m).None? <==> Spendable(lib, m)
  {
    if IsIdentity(m.key) { assert m.key == IDENTITY; }
  }

  /** The coding of the neutral point: a one and 31 zeros. */
  predicate IsIdentity(key: Bytes) {
    |key| == 32 && key[0] == 1 && forall i :: 1 <= i < 32 ==> key[i] == 0
  }

  /** Exactly the faulty members are found, each with its own fault. */
  lemma {:induction false} FaultsAreExact(lib: SweepLib, ms: seq<OutputKey>, i: nat, f: Fault)
    ensures (i, f) in Faults(lib, ms) <==> i < |ms| && HasFault(lib, ms[i], f)
  {
    if ms != [] {
      FaultMeans(lib, ms[|ms| - 1], f);
      hide FaultOf, HasFault;
      FaultsAreExact(lib, ms[..|ms| - 1], i, f);
    }
  }

  lemma NoFaultsMeansNone(lib: SweepLib, ms: seq<OutputKey>)
    ensures Faults(lib, ms) == [] <==> forall m :: m in ms ==> Spendable(lib, m)
  {
    hide Faults, FaultOf, HasFault, Spendable;
    if Faults(lib, ms) == [] {
      forall m | m in ms ensures Spendable(lib, m) {
        var i :| 0 <= i < |ms| && ms[i] == m;
        FaultMeans(lib, m, Locked);
        if FaultOf(lib, m).Some? {
          FaultMeans(lib, m, FaultOf(lib, m).value);
          FaultsAreExact(lib, ms, i, FaultOf(lib, m).value);
        }
      }
    } else {
      var (i, f) := Faults(lib, ms)[0];
      FaultsAreExact(lib, ms, i, f);
      FaultMeans(lib, ms[i], f);
    }
  }

  /** The first ring, from selection `k` on, without a faulty member; selection `last` is the last one. */
  function Ring(lib: SweepLib, a: Answers, k: nat, last: nat): Result<(Choice, seq<OutputKey>), SweepFault>
    decreases last - k
  {
    if a.choices(k).None? then Err(SelectionFailed)
    else if a.keys(k).None? then Err(KeysNotFetched)
    else
      var invalid := Faults(lib, a.keys(k).value);
      if invalid == [] then Ok((a.choices(k).value, a.keys(k).value))
      else if k >= last then Err(NoValidRing(|invalid|))
      else Ring(lib, a, k + 1, last)
  }

  method SelectRing(lib: SweepLib, a: Answers, maxRetries: nat)
    returns (r: Result<(Choice, seq<OutputKey>), SweepFault>, ghost draws: nat)
    requires maxRetries > 0
    ensures r == Ring(lib, a, 0, maxRetries - 1)
    ensures draws <= maxRetries
  {
    hide Faults;
    draws := 1;
    var choice := a.choices(0);
    if choice.None? { r := Err(SelectionFailed); return; }
    var ring := a.keys(0);
    if ring.None? { r := Err(KeysNotFetched); return; }
    for attempt := 0 to maxRetries
      invariant attempt < maxRetries && draws == attempt + 1
      invariant choice == a.choices(attempt) && choice.Some? && ring == a.keys(attempt) && ring.Some?
      invariant Ring(lib, a, 0, maxRetries - 1) == Ring(lib, a, attempt, maxRetries - 1)
    {
      var invalid := ValidateRingMembers(lib, ring.value);
      if |invalid| == 0 { break; }
      if attempt == maxRetries - 1 { r := Err(NoValidRing(|invalid|)); return; }
      draws := draws + 1;
      choice := a.choices(attempt + 1);
      if choice.None? { r := Err(SelectionFailed); return; }
      ring := a.keys(attempt + 1);
      if ring.None? { r := Err(KeysNotFetched); return; }
    }
    r := Ok((choice.value, ring.value));
  }

  /** Selection j and its keys are answered, as are those from k on before it; these rings have a member
      that cannot be spent, and ring j has none. */
  predicate FirstValid(lib: SweepLib, a: Answers, k: nat, j: nat) {
    && k <= j
    && (forall i :: k <= i <= j ==> a.choices(i).Some? && a.keys(i).Some?)
    && (forall i :: k <= i < j ==> exists m :: m in a.keys(i).value && !Spendable(lib, m))
    && (forall m :: m in a.keys(j).value ==> Spendable(lib, m))
  }

  /** The ring accepted is that of the first selection without a faulty member; there is one unless a node
      or the selection fails first, or the allowed selections run out. */
  lemma {:induction false} AcceptedRingIsFirstValid(lib: SweepLib, a: Answers, k: nat, last: nat)
    requires k <= last
    ensures Ring(lib, a, k, last).Ok? <==> exists j :: k <= j <= last && FirstValid(lib, a, k, j)
    ensures forall j :: k <= j <= last && FirstValid(lib, a, k, j) ==>
      Ring(lib, a, k, last) == Ok((a.choices(j).value, a.keys(j).value))
    decreases last - k
  {
    hide Faults, Spendable, FirstValid;
    if a.choices(k).None? || a.keys(k).None? {
      forall j: nat ensures !FirstValid(lib, a, k, j) { UnansweredIsNotValid(lib, a, k, j); }
    } else {
      NoFaultsMeansNone(lib, a.keys(k).value);
      if Faults(lib, a.keys(k).value) == [] {
        forall j: nat ensures FirstValid(lib, a, k, j) <==> j == k { ValidIsFirst(lib, a, k, j); }
        assert FirstValid(lib, a, k, k);
      } else {
        forall j: nat ensures FirstValid(lib, a, k, j) <==> k + 1 <= j && FirstValid(lib, a, k + 1, j) {
          LaterIsValid(lib, a, k, j);
        }
        if k < last {
          AcceptedRingIsFirstValid(lib, a, k + 1, last);
          if Ring(lib, a, k + 1, last).Ok? {
            var j :| k + 1 <= j <= last && FirstValid(lib, a, k + 1, j);
            assert FirstValid(lib, a, k, j);
          }
        }
      }
    }
  }

  lemma UnansweredIsNotValid(lib: SweepLib, a: Answers, k: nat, j: nat)
    requires a.choices(k).None? || a.keys(k).None?
    ensures !FirstValid(lib, a, k, j)
  {
    hide Spendable;
  }

  lemma ValidIsFirst(lib: SweepLib, a: Answers, k: nat, j: nat)
    requires a.choices(k).Some? && a.keys(k).Some? && forall m :: m in a.keys(k).value ==> Spendable(lib, m)
    ensures FirstValid(lib, a, k, j) <==> j == k
  {
    hide Spendable;
  }

  lemma LaterIsValid(lib: SweepLib, a: Answers, k: nat, j: nat)
    requires a.choices(k).Some? && a.keys(k).Some? && exists m :: m in a.keys(k).value && !Spendable(lib, m)
    ensures FirstValid(lib, a, k, j) <==> k + 1 <= j && FirstValid(lib, a, k + 1, j)
  {
    hide Spendable;
    if k + 1 <= j && FirstValid(lib, a, k + 1, j) {
      forall i | k <= i < j ensures exists m :: m in a.keys(i).value && !Spendable(lib, m) {
        assert i == k || k + 1 <= i;
      }
    }
  }

  /* ----- the fee ----- */

  function PerByte(estimate: Option<FeeEstimate>): int {
    if estimate.Some? then estimate.value.feePerByte else FALLBACK_FEE_PER_BYTE
  }

  function Mask(estimate: Option<FeeEstimate>): (m: int)
    ensures m != 0
  {
    if estimate.Some? && estimate.value.quantizationMask != 0 then estimate.value.quantizationMask else FALLBACK_MASK
  }

  /** `Math.ceil(n / m)`, for a positive divisor. */
  function CeilDiv(n: int, m: int): int
    requires m > 0
  {
    -((-n) / m)
  }

  function Fee(estimate: Option<FeeEstimate>): int {
    var raw := PerByte(estimate) * ESTIMATED_TX_SIZE;
    if Mask(estimate) > 0 then CeilDiv(raw, Mask(estimate)) * Mask(estimate) else raw
  }

  method NetworkFee(estimate: Option<FeeEstimate>) returns (networkFee: int)
    ensures networkFee == Fee(estimate)
  {
    var feePerByte, quantizationMask := FALLBACK_FEE_PER_BYTE, FALLBACK_MASK;
    if estimate.Some? {
      feePerByte := estimate.value.feePerByte;
      var mask := estimate.value.quantizationMask;
      quantizationMask := if mask != 0 then mask else FALLBACK_MASK;
    }
    networkFee := feePerByte * ESTIMATED_TX_SIZE;
    if quantizationMask > 0 {
      networkFee := CeilDiv(networkFee, quantizationMask) * quantizationMask;
    }
  }

  /** The rate and the mask are the node's, or 23000 a byte and 10000 when there is no estimate; a mask of
      zero counts as none. The transaction is taken to have 3200 bytes. */
  lemma RatesInFull(estimate: Option<FeeEstimate>)
    ensures estimate.None? ==> PerByte(estimate) == 23_000 && Mask(estimate) == 10_000 && Fee(estimate) == 73_600_000
    ensures estimate.Some? ==>
      && PerByte(estimate) == estimate.value.feePerByte
      && Mask(estimate) == (if estimate.value.quantizationMask == 0 then 10_000 else estimate.value.quantizationMask)
    ensures Mask(estimate) < 0 ==> Fee(estimate) == 3200 * PerByte(estimate)
  {
  }

  /** With a positive mask the fee is the least multiple of it that covers the estimate. */
  lemma FeeIsLeastMultiple(estimate: Option<FeeEstimate>, k: int)
    requires Mask(estimate) > 0
    ensures var raw := PerByte(estimate) * ESTIMATED_TX_SIZE;
      && Fee(estimate) % Mask(estimate) == 0
      && raw <= Fee(estimate) < raw + Mask(estimate)
      && (k * Mask(estimate) >= raw ==> k * Mask(estimate) >= Fee(estimate))
  {
    hide PerByte, Mask;
    var m := Mask(estimate);
    var raw := PerByte(estimate) * ESTIMATED_TX_SIZE;
    var c := CeilDiv(raw, m);
    DivisionBounds(raw, m);
    assert (c * m) % m == 0 by { MultipleHasNoRemainder(c, m); }
    if k * m >= raw && k < c {
      Scale(k, c - 1, m);
    }
    if k >= c { Scale(c, k, m); }
  }

  lemma DivisionBounds(n: int, m: int)
    requires m > 0
    ensures n <= CeilDiv(n, m) * m < n + m && (CeilDiv(n, m) - 1) * m < n
  {
  }

  lemma MultipleHasNoRemainder(c: int, m: int)
    requires m != 0
    ensures (c * m) % m == 0
  {
    var q, r := (c * m) / m, (c * m) % m;
    assert c * m == m * q + r;
    assert r == m * (c - q);
    if r != 0 {
      if m > 0 {
        if c - q >= 1 { Scale(1, c - q, m); } else { Scale(c - q, 0, m); }
      } else {
        if c - q >= 1 { Scale(1, c - q, -m); } else { Scale(c - q, -1, -m); }
      }
      assert false;
    }
  }

  lemma Scale(a: int, b: int, m: int)
    requires a <= b && m >= 0
    ensures a * m <= b * m
  {
  }

  /** A mask that is not positive is not rounded to: the fee is a multiple of the mask exactly when the
      mask is positive or the estimate already is one. */
  lemma FeeIsQuantisedExactly(estimate: Option<FeeEstimate>)
    ensures Fee(estimate) % Mask(estimate) == 0
       <==> Mask(estimate) > 0 || (PerByte(estimate) * ESTIMATED_TX_SIZE) % Mask(estimate) == 0
  {
    hide PerByte, Mask, CeilDiv;
    if Mask(estimate) > 0 { FeeIsLeastMultiple(estimate, 0); }
  }

  /** A node can answer with a mask that the fee is no multiple of. */
  lemma FeeCanBeUnquantised()
    ensures var estimate := Some(FeeEstimate(1, -7)); Fee(estimate) % Mask(estimate) != 0
  {
  }

  /* ----- the last check ----- */

  function BadInput(inputs: seq<SweepInput>, ringSize: nat, i: nat): Option<Rejection>
    decreases |inputs| - i
  {
    if i >= |inputs| then None
    else if |inputs[i].ring| != ringSize then Some(WrongRingSize(i))
    else if inputs[i].realIndex >= |inputs[i].ring| then Some(RealIndexBeyondRing(i))
    else BadInput(inputs, ringSize, i + 1)
  }

  function RingSizeFor(rctType: int): nat {
    if rctType == 6 then CLSAG_RING_SIZE else PRE_CLSAG_RING_SIZE
  }

  function VerifySweepTx(data: ConstructionData, expectedAddress: string): Option<Rejection> {
    if data.destination.address != expectedAddress then Some(DestinationMismatch)
    else if data.destination.amount <= 0 then Some(AmountNotPositive)
    else if data.fee <= 0 then Some(FeeNotPositive)
    else if data.fee > data.destination.amount / 10 then Some(FeeTooHigh)
    else if data.inputs == [] then Some(NoInputs)
    else BadInput(data.inputs, RingSizeFor(data.rctType), 0)
  }

  lemma {:induction false} NoBadInput(inputs: seq<SweepInput>, ringSize: nat, i: nat)
    ensures BadInput(inputs, ringSize, i).None? <==>
      forall j :: i <= j < |inputs| ==> |inputs[j].ring| == ringSize && inputs[j].realIndex < ringSize
    decreases |inputs| - i
  {
    if i < |inputs| {
      NoBadInput(inputs, ringSize, i + 1);
    }
  }

  /** What the check accepts: the expected destination, a positive fee of at most a tenth of the amount
      sent, and inputs with full rings that hold their real index. */
  lemma CheckAcceptsExactly(data: ConstructionData, expectedAddress: string)
    ensures VerifySweepTx(data, expectedAddress).None? <==>
      && data.destination.address == expectedAddress
      && 0 < data.fee && 10 * data.fee <= data.destination.amount
      && data.inputs != []
      && forall j :: 0 <= j < |data.inputs| ==>
           |data.inputs[j].ring| == RingSizeFor(data.rctType) && data.inputs[j].realIndex < |data.inputs[j].ring|
  {
    hide BadInput;
    NoBadInput(data.inputs, RingSizeFor(data.rctType), 0);
  }

  /* ----- the whole construction ----- */

  function Members(keys: seq<OutputKey>): (r: seq<RingMember>)
    ensures |r| == |keys| && forall i :: 0 <= i < |keys| ==> r[i] == RingMember(keys[i].key, keys[i].mask)
  {
    seq(|keys|, i requires 0 <= i < |keys| => RingMember(keys[i].key, keys[i].mask))
  }

  function InputOf(spent: Scanned, choice: Choice, keys: seq<OutputKey>): SweepInput {
    SweepInput(Members(keys), choice.realIndexInRing, spent.key, spent.txPubKey, spent.index, spent.amount,
               spent.mask, choice.indices)
  }

  function DataFor(spent: Scanned, address: string, fee: int, choice: Choice, keys: seq<OutputKey>): ConstructionData {
    ConstructionData([InputOf(spent, choice, keys)], Destination(address, spent.amount - fee), fee, 6)
  }

  /** The construction data handed to the signer, or why there is none. */
  function Construct(lib: SweepLib, scanned: seq<Scanned>, receiveAddress: string, a: Answers)
    : Result<ConstructionData, SweepFault>
  {
    if scanned == [] then Err(NoOutputs)
    else
      var spent := scanned[0];
      var ring :- Ring(lib, a, 0, MAX_RING_RETRIES - 1);
      var (choice, keys) := ring;
      if choice.realIndexInRing < |keys| && !lib.opens(spent, keys[choice.realIndexInRing].mask) then
        Err(CommitmentMismatch)
      else if spent.amount - Fee(a.fee) <= 0 then Err(AmountBelowFee)
      else
        var data := DataFor(spent, receiveAddress, Fee(a.fee), choice, keys);
        var rejection := VerifySweepTx(data, receiveAddress);
        if rejection.Some? then Err(SweepFault.Rejected(rejection.value)) else Ok(data)
  }

  method BuildSweep(lib: SweepLib, scanned: seq<Scanned>, receiveAddress: string, a: Answers)
    returns (r: Result<ConstructionData, SweepFault>)
    ensures r == Construct(lib, scanned, receiveAddress, a)
  {
    hide Ring, Fee, VerifySweepTx;
    if |scanned| == 0 { return Err(NoOutputs); }
    var spent := scanned[0];
    var selected, _ := SelectRing(lib, a, MAX_RING_RETRIES);
    if selected.Err? { return Err(selected.error); }
    var (choice, keys) := selected.value;
    if choice.realIndexInRing < |keys| {
      var commitmentMatch := lib.opens(spent, keys[choice.realIndexInRing].mask);
      if !commitmentMatch { return Err(CommitmentMismatch); }
    }
    var networkFee := NetworkFee(a.fee);
    var destinationAmount := spent.amount - networkFee;
    if destinationAmount <= 0 { return Err(AmountBelowFee); }
    var data := ConstructionData([InputOf(spent, choice, keys)], Destination(receiveAddress, destinationAmount),
                                 networkFee, 6);
    var rejection := VerifySweepTx(data, receiveAddress);
    if rejection.Some? { return Err(SweepFault.Rejected(rejection.value)); }
    return Ok(data);
  }

  /** The input spends `spent` from the ring that selection and key fetch j answered, the first whose members
      can all be spent: every field of the output, and every index and member of the ring, in place. */
  predicate SpendsFrom(lib: SweepLib, a: Answers, j: nat, spent: Scanned, input: SweepInput) {
    && FirstValid(lib, a, 0, j)
    && input.oneTimeKey == spent.key && input.txPubKey == spent.txPubKey && input.outputIndex == spent.index
    && input.amount == spent.amount && input.mask == spent.mask
    && var choice, keys := a.choices(j).value, a.keys(j).value;
    && input.keyOffsets == choice.indices && input.realIndex == choice.realIndexInRing
    && |input.ring| == |keys|
    && forall i :: 0 <= i < |keys| ==> input.ring[i].key == keys[i].key && input.ring[i].commitment == keys[i].mask
  }

  /** Whatever the nodes and the selection answer, data that reaches the signer sends everything but
      the fee to the receive address, pays a fee of at most a tenth of that, and spends from a ring of
      sixteen members: each has a key and a commitment that decode, a key other than the identity and no
      lock, and the real member's commitment was opened. */
  lemma SignedDataIsSound(lib: SweepLib, scanned: seq<Scanned>, receiveAddress: string, a: Answers)
    requires Construct(lib, scanned, receiveAddress, a).Ok?
    ensures var data := Construct(lib, scanned, receiveAddress, a).value;
      && scanned != [] && |data.inputs| == 1 && data.rctType == 6
      && data.destination.address == receiveAddress
      && data.destination.amount + data.fee == scanned[0].amount
      && 0 < data.fee == Fee(a.fee) && 10 * data.fee <= data.destination.amount
      && var input := data.inputs[0];
      && |input.ring| == 16 && input.realIndex < 16
      && lib.opens(scanned[0], input.ring[input.realIndex].commitment)
      && (forall m :: m in input.ring ==>
            lib.decodes(m.key) && !IsIdentity(m.key) && lib.decodes(m.commitment))
      && (exists j :: 0 <= j < 50 && SpendsFrom(lib, a, j, scanned[0], input)
                      && forall m :: m in a.keys(j).value ==> m.unlocked != Some(false))
  {
    hide Ring, Fee, VerifySweepTx, FaultOf, FirstValid, Spendable;
    var data := Construct(lib, scanned, receiveAddress, a).value;
    var input := data.inputs[0];
    var ring := Ring(lib, a, 0, MAX_RING_RETRIES - 1).value;
    CheckAcceptsExactly(data, receiveAddress);
    AcceptedRingIsFirstValid(lib, a, 0, MAX_RING_RETRIES - 1);
    var j :| 0 <= j <= MAX_RING_RETRIES - 1 && FirstValid(lib, a, 0, j);
    FirstValidIsSpendable(lib, a, j);
    assert input == InputOf(scanned[0], ring.0, ring.1);
    assert SpendsFrom(lib, a, j, scanned[0], input);
    forall m | m in input.ring ensures lib.decodes(m.key) && !IsIdentity(m.key) && lib.decodes(m.commitment)
    {
      var i :| 0 <= i < |input.ring| && input.ring[i] == m;
      assert ring.1[i] in ring.1;
    }
  }

  lemma FirstValidIsSpendable(lib: SweepLib, a: Answers, j: nat)
    requires FirstValid(lib, a, 0, j)
    ensures a.choices(j).Some? && a.keys(j).Some?
    ensures forall m :: m in a.keys(j).value ==>
      lib.decodes(m.key) && !IsIdentity(m.key) && lib.decodes(m.mask) && m.unlocked != Some(false)
  {
    forall m | m in a.keys(j).value
      ensures lib.decodes(m.key) && !IsIdentity(m.key) && lib.decodes(m.mask) && m.unlocked != Some(false)
    {
      assert Spendable(lib, m);
    }
  }

  /** When a sweep is signed: the lock pays out eleven times the fee or more, and the ring found has
      sixteen members with the real one, whose commitment opens, among them. */
  lemma SweepSignsExactly(lib: SweepLib, scanned: seq<Scanned>, receiveAddress: string, a: Answers)
    ensures Construct(lib, scanned, receiveAddress, a).Ok? <==>
      && scanned != []
      && 0 < Fee(a.fee) && 11 * Fee(a.fee) <= scanned[0].amount
      && Ring(lib, a, 0, MAX_RING_RETRIES - 1).Ok?
      && var (choice, keys) := Ring(lib, a, 0, MAX_RING_RETRIES - 1).value;
      && |keys| == 16 && choice.realIndexInRing < 16
      && lib.opens(scanned[0], keys[choice.realIndexInRing].mask)
  {
    hide Ring, Fee, VerifySweepTx;
    if scanned != [] && Ring(lib, a, 0, MAX_RING_RETRIES - 1).Ok? {
      var (choice, keys) := Ring(lib, a, 0, MAX_RING_RETRIES - 1).value;
      var data := DataFor(scanned[0], receiveAddress, Fee(a.fee), choice, keys);
      CheckAcceptsExactly(data, receiveAddress);
      assert |data.inputs[0].ring| == |keys| && data.inputs[0].realIndex == choice.realIndexInRing;
    }
  }

  /** When the ring came from the decoy selection, its indices ascend to the real output at the real
      index, and the bytes the signer is given read back to exactly this input. */
  lemma SelectedInputReadsBack(lib: SweepLib, scanned: seq<Scanned>, receiveAddress: string, a: Answers,
                               distribution: seq<nat>, window: nat, draws: nat -> Decoys.Draw,
                               monero: MoneroLib, viewKey: Bytes, o: OutputWithDecoys)
    requires Construct(lib, scanned, receiveAddress, a).Ok?
    requires Decoys.Select(scanned[0].globalIndex, distribution, CLSAG_RING_SIZE, window, draws).Ok?
    requires var s := Decoys.Select(scanned[0].globalIndex, distribution, CLSAG_RING_SIZE, window, draws).value;
      var input := Construct(lib, scanned, receiveAddress, a).value.inputs[0];
      input.keyOffsets == s.indices && input.realIndex == s.realIndexInRing
    requires var input := Construct(lib, scanned, receiveAddress, a).value.inputs[0];
      InputAccepted(monero, input, viewKey) && Meant(monero, input, viewKey, o) && WellSized(o)
    ensures var input := Construct(lib, scanned, receiveAddress, a).value.inputs[0];
      && input.realIndex < |input.keyOffsets| && input.keyOffsets[input.realIndex] == scanned[0].globalIndex
      && Read(Encode(o)) == Some((o, [])) && o.signer == input.realIndex
      && Offsets.Differences(o.offsets, input.keyOffsets)
  {
    hide Construct, Decoys.Select, InputAccepted, WellSized, Read, Encode, SpendsFrom, Sorting.Sort, KeyOffset;
    SignedDataIsSound(lib, scanned, receiveAddress, a);
    var input := Construct(lib, scanned, receiveAddress, a).value.inputs[0];
    Decoys.SelectionIsARing(scanned[0].globalIndex, distribution, CLSAG_RING_SIZE, window, draws);
    Decoys.RealIndexIsRight(scanned[0].globalIndex, distribution, CLSAG_RING_SIZE, window, draws);
    Decoys.OffsetsFollowRingOrder(scanned[0].globalIndex, distribution, CLSAG_RING_SIZE, window, draws, o.offsets);
    BytesReadBackExactly(monero, input, viewKey, o);
  }
}
