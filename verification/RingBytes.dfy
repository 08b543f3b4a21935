/** The binary form of a sweep input: the bytes written, and the documented layout read back. */
module RingBytes {
  import opened Wrappers
  import opened Bitcoin
  import opened Varint
  import opened Scalars
  import opened MoneroKeys
  import opened MoneroSpend
  import opened Sorting
  import opened Offsets

  datatype RingMember = RingMember(key: Bytes, commitment: Bytes)

  datatype SweepInput = SweepInput(
    ring: seq<RingMember>,
    realIndex: nat,
    oneTimeKey: Bytes,
    txPubKey: Bytes,
    outputIndex: nat,
    amount: nat,
    mask: Bytes,
    keyOffsets: seq<nat>
  )

  datatype BuildError =
    | BadField | BadPoint | BadViewKey | EmptyRing | BadOffsets(error: OffsetError) | RealIndexOutOfRange

  /** The structure the layout describes. */
  datatype OutputWithDecoys = OutputWithDecoys(
    key: Bytes,
    keyOffset: Bytes,
    mask: Bytes,
    amount: nat,
    offsets: seq<nat>,
    signer: Byte,
    ring: seq<RingMember>
  )

  function EncodeOffsets(offsets: seq<nat>): Bytes {
    if offsets == [] then [] else Leb(offsets[0]) + EncodeOffsets(offsets[1..])
  }

  function EncodeRing(ring: seq<RingMember>): Bytes {
    if ring == [] then [] else ring[0].key + ring[0].commitment + EncodeRing(ring[1..])
  }

  /** The bytes of one output with its ring. */
  function Encode(o: OutputWithDecoys): Bytes {
    o.key + o.keyOffset + o.mask + EncodeLE(o.amount, 8)
    + Leb(|o.offsets|) + EncodeOffsets(o.offsets) + [o.signer] + EncodeRing(o.ring)
  }

  // ----- the documented layout, as a reader -----

  function Take(bytes: Bytes, n: nat): Option<(Bytes, Bytes)> {
    if |bytes| < n then None else Some((bytes[..n], bytes[n..]))
  }

  function ReadOffsets(bytes: Bytes, n: nat): Option<(seq<nat>, Bytes)>
    decreases n
  {
    if n == 0 then Some(([], bytes))
    else
      match Decode(bytes)
      case None => None
      case Some((v, rest)) =>
        match ReadOffsets(rest, n - 1)
        case None => None
        case Some((vs, rest')) => Some(([v] + vs, rest'))
  }

  function ReadRing(bytes: Bytes, n: nat): Option<(seq<RingMember>, Bytes)>
    decreases n
  {
    if n == 0 then Some(([], bytes))
    else if |bytes| < 64 then None
    else
      match ReadRing(bytes[64..], n - 1)
      case None => None
      case Some((ring, rest)) => Some(([RingMember(bytes[..32], bytes[32..64])] + ring, rest))
  }

  /** Reads one output: the ring has as many members as there are offsets. */
  function Read(bytes: Bytes): Option<(OutputWithDecoys, Bytes)> {
    if |bytes| < 104 then None
    else
      match Decode(bytes[104..])
      case None => None
      case Some((n, afterCount)) =>
        match ReadOffsets(afterCount, n)
        case None => None
        case Some((offsets, afterOffsets)) =>
          if afterOffsets == [] then None
          else
            match ReadRing(afterOffsets[1..], n)
            case None => None
            case Some((ring, rest)) =>
              Some((OutputWithDecoys(bytes[..32], bytes[32..64], bytes[64..96], ValueLE(bytes[96..104]), offsets,
                                     afterOffsets[0],
                                     ring), rest))
  }

  predicate WellSized(o: OutputWithDecoys) {
    && |o.key| == |o.keyOffset| == |o.mask| == 32
    && o.amount < TWO64
    && forall m :: m in o.ring ==> |m.key| == |m.commitment| == 32
  }

  lemma {:induction false} OffsetsReadBack(offsets: seq<nat>, tail: Bytes)
    ensures ReadOffsets(EncodeOffsets(offsets) + tail, |offsets|) == Some((offsets, tail))
  {
    if offsets == [] {
      assert EncodeOffsets(offsets) + tail == tail;
    } else {
      var rest := EncodeOffsets(offsets[1..]) + tail;
      assert EncodeOffsets(offsets) + tail == Leb(offsets[0]) + rest;
      DecodeAfterEncode(offsets[0], rest);
      OffsetsReadBack(offsets[1..], tail);
      assert offsets == [offsets[0]] + offsets[1..];
    }
  }

  lemma {:induction false} RingReadsBack(ring: seq<RingMember>, tail: Bytes)
    requires forall m :: m in ring ==> |m.key| == |m.commitment| == 32
    ensures ReadRing(EncodeRing(ring) + tail, |ring|) == Some((ring, tail))
  {
    if ring == [] {
      assert EncodeRing(ring) + tail == tail;
    } else {
      var bytes := EncodeRing(ring) + tail;
      assert bytes[..32] == ring[0].key && bytes[32..64] == ring[0].commitment;
      assert bytes[64..] == EncodeRing(ring[1..]) + tail;
      RingReadsBack(ring[1..], tail);
      assert ring == [ring[0]] + ring[1..];
    }
  }

  /** What precedes the ring reads back whatever follows it. */
  lemma HeadReadsBack(o: OutputWithDecoys, tail: Bytes)
    requires WellSized(o)
    ensures var bytes := Encode(o) + tail;
            && |bytes| >= 104
            && bytes[..32] == o.key && bytes[32..64] == o.keyOffset && bytes[64..96] == o.mask
            && ValueLE(bytes[96..104]) == o.amount
            && bytes[104..] == Leb(|o.offsets|) + (EncodeOffsets(o.offsets) + ([o.signer] + EncodeRing(o.ring) + tail))
  {
    hide EncodeLE, Leb, EncodeOffsets, EncodeRing;
    var bytes := Encode(o) + tail;
    assert bytes[..32] == o.key && bytes[32..64] == o.keyOffset && bytes[64..96] == o.mask;
    assert bytes[96..104] == EncodeLE(o.amount, 8);
    AmountFits(o.amount);
  }

  lemma AmountFits(amount: nat)
    requires amount < TWO64
    ensures ValueLE(EncodeLE(amount, 8)) == amount
  {
    assert Pow256(8) == TWO64;
    hide Pow256;
    ValueOfEncoding(amount, 8);
  }

  /** The layout reads every field back unchanged when the ring has one member per offset. */
  lemma ReadAfterEncode(o: OutputWithDecoys, tail: Bytes)
    requires WellSized(o) && |o.ring| == |o.offsets|
    ensures Read(Encode(o) + tail) == Some((o, tail))
  {
    HeadReadsBack(o, tail);
    hide Encode;
    var bytes, afterOffsets := Encode(o) + tail, [o.signer] + EncodeRing(o.ring) + tail;
    DecodeAfterEncode(|o.offsets|, EncodeOffsets(o.offsets) + afterOffsets);
    OffsetsReadBack(o.offsets, afterOffsets);
    assert afterOffsets[1..] == EncodeRing(o.ring) + tail;
    RingReadsBack(o.ring, tail);
  }

  /** A reader always returns as many ring members as offsets. */
  lemma ReadIsBalanced(bytes: Bytes)
    ensures Read(bytes).Some? ==> |Read(bytes).value.0.ring| == |Read(bytes).value.0.offsets|
  {
    if Read(bytes).Some? {
      var (n, afterCount) := Decode(bytes[104..]).value;
      ReadCounts(afterCount, n);
      ReadCounts(ReadOffsets(afterCount, n).value.1[1..], n);
    }
  }

  lemma {:induction false} ReadCounts(bytes: Bytes, n: nat)
    ensures ReadOffsets(bytes, n).Some? ==> |ReadOffsets(bytes, n).value.0| == n
    ensures ReadRing(bytes, n).Some? ==> |ReadRing(bytes, n).value.0| == n
    decreases n
  {
    if n > 0 {
      if Decode(bytes).Some? {
        ReadCounts(Decode(bytes).value.1, n - 1);
      }
      if |bytes| >= 64 {
        ReadCounts(bytes[64..], n - 1);
      }
    }
  }

  // ----- what the builder writes -----

  /** The scalar added to the spend key for this output, as 32 bytes. */
  function KeyOffset(lib: MoneroLib, viewKey: Bytes, R: Point, index: nat): Bytes {
    ScalarBytes(DerivationToScalar(lib, Times8((ValueLE(viewKey) * R) % GROUP_ORDER), index))
  }

  predicate InputAccepted(lib: MoneroLib, input: SweepInput, viewKey: Bytes) {
    && |input.oneTimeKey| == 32 && |input.txPubKey| == 32 && |input.mask| == 32
    && lib.decode(input.txPubKey).Some?
    && ValueLE(viewKey) < GROUP_ORDER
    && input.ring != []
    && (forall m :: m in input.ring ==> |m.key| == |m.commitment| == 32)
    && input.keyOffsets != [] && Distinct(input.keyOffsets)
    && input.realIndex < |input.ring|
  }

  /** What was meant to be written. */
  predicate Meant(lib: MoneroLib, input: SweepInput, viewKey: Bytes, o: OutputWithDecoys) {
    && lib.decode(input.txPubKey).Some?
    && o.key == input.oneTimeKey
    && o.keyOffset == KeyOffset(lib, viewKey, lib.decode(input.txPubKey).value, input.outputIndex)
    && o.mask == input.mask && o.amount == input.amount
    && Differences(o.offsets, Sort(input.keyOffsets))
    && o.signer == input.realIndex % 0x100
    && o.ring == input.ring
  }

  /** Serialises one input. Every u64 and u8 conversion of the code is written out. */
  method BuildOutputWithDecoys(lib: MoneroLib, input: SweepInput, viewKey: Bytes)
    returns (r: Result<Bytes, BuildError>, ghost o: OutputWithDecoys)
    requires input.amount < TWO64 && input.outputIndex < TWO64
    requires |input.keyOffsets| < TWO64 && forall k :: k in input.keyOffsets ==> k < TWO64
    ensures r.Ok? <==> InputAccepted(lib, input, viewKey)
    ensures r.Ok? ==> Meant(lib, input, viewKey, o) && WellSized(o) && r.value == Encode(o)
  {
    hide EncodeLE, Leb, Sort, ScalarBytes;
    o := OutputWithDecoys([], [], [], 0, [], 0, []);
    if |input.oneTimeKey| != 32 { r := Err(BadField); return; }
    if |input.txPubKey| != 32 { r := Err(BadField); return; }
    var R := lib.decode(input.txPubKey);
    if R.None? { r := Err(BadPoint); return; }
    var view := BytesToBigIntLE(viewKey);
    if view >= GROUP_ORDER { r := Err(BadViewKey); return; }
    var keyOffset := KeyOffset(lib, viewKey, R.value, input.outputIndex);
    if |input.mask| != 32 { r := Err(BadField); return; }
    if |input.ring| == 0 { r := Err(EmptyRing); return; }
    for j := 0 to |input.ring|
      invariant forall k :: 0 <= k < j ==> |input.ring[k].key| == |input.ring[k].commitment| == 32
    {
      if |input.ring[j].key| != 32 || |input.ring[j].commitment| != 32 { r := Err(BadField); return; }
    }
    var relative := AbsoluteToRelativeOffsets(input.keyOffsets);
    if relative.Err? { r := Err(BadOffsets(relative.error)); return; }
    if input.realIndex >= |input.ring| { r := Err(RealIndexOutOfRange); return; }
    o := OutputWithDecoys(input.oneTimeKey, keyOffset, input.mask, input.amount, relative.value,
                          input.realIndex % 0x100, input.ring);
    KeyOffsetIs32(lib, viewKey, R.value, input.outputIndex);
    OffsetsFit(relative.value, input.keyOffsets);
    var bytes := WriteOutput(input, keyOffset, relative.value, o);
    r := Ok(bytes);
  }

  /** The offset written and a spend key s add up to the private key of the output. */
  lemma KeyOffsetIsShare(lib: MoneroLib, viewKey: Bytes, s: Point, R: Point, index: nat)
    requires ValueLE(viewKey) < GROUP_ORDER
    ensures (ValueLE(KeyOffset(lib, viewKey, R, index)) + s) % GROUP_ORDER
         == OneTimePrivateKey(lib, ValueLE(viewKey), s, R, index)
  {
    hide ValueLE;
    var h := DerivationToScalar(lib, Times8((ValueLE(viewKey) * R) % GROUP_ORDER), index);
    ScalarBytesValue(h);
    ModuloUnique(h, h, 0);
  }

  /** What is written for an output that pays s*G opens it: the offset and s, times the base point, are
      the written key. */
  lemma WrittenOffsetOpensOutput(lib: MoneroLib, tx: MoneroTx, input: SweepInput, viewKey: Bytes, s: Point,
                                 o: OutputWithDecoys)
    requires InputAccepted(lib, input, viewKey) && Meant(lib, input, viewKey, o)
    requires input.outputIndex < TWO32 && ViewKeySecret(lib, ScalarOf(viewKey), input.txPubKey).Some?
    requires OwnsOutput(lib, tx, ViewKeySecret(lib, ScalarOf(viewKey), input.txPubKey).value, s, input.outputIndex)
    requires tx.vout[input.outputIndex].key == Some(input.oneTimeKey)
    ensures lib.encode(((ValueLE(o.keyOffset) + s) * BASE) % GROUP_ORDER) == o.key
  {
    hide ViewKeySecret, OwnsOutput, ValueLE, KeyOffset;
    ModuloUnique(ValueLE(viewKey), ValueLE(viewKey), 0);
    OwnedOutputPassesGuard(lib, tx, ScalarOf(viewKey), s, input.txPubKey, input.outputIndex);
    var R := lib.decode(input.txPubKey).value;
    KeyOffsetIsShare(lib, viewKey, s, R, input.outputIndex);
    var x := OneTimePrivateKey(lib, ScalarOf(viewKey), s, R, input.outputIndex);
    assert x * BASE == x;
    ModuloUnique(x, x, 0);
  }

  lemma KeyOffsetIs32(lib: MoneroLib, viewKey: Bytes, R: Point, index: nat)
    ensures |KeyOffset(lib, viewKey, R, index)| == 32
  {
  }

  /** Differences of u64 indices are u64 values. */
  lemma OffsetsFit(relative: seq<nat>, absolute: seq<nat>)
    requires absolute != [] && Differences(relative, Sort(absolute))
    requires forall k :: k in absolute ==> k < TWO64
    ensures forall k :: 0 <= k < |relative| ==> relative[k] < TWO64
  {
    hide Sort;
    forall k | 0 <= k < |relative| ensures relative[k] < TWO64 {
      assert Sum(relative[..k + 1]) == Sort(absolute)[k] && Sort(absolute)[k] in absolute;
      assert relative[..k + 1][..k] == relative[..k];
      SumNonNegative(relative[..k]);
    }
  }

  lemma {:induction false} SumNonNegative(s: seq<nat>)
    ensures Sum(s) >= 0
  {
    if s != [] {
      SumNonNegative(s[..|s| - 1]);
    }
  }

  lemma {:induction false} EncodeOffsetsAppend(offsets: seq<nat>, x: nat)
    ensures EncodeOffsets(offsets + [x]) == EncodeOffsets(offsets) + Leb(x)
  {
    if offsets != [] {
      EncodeOffsetsAppend(offsets[1..], x);
      assert (offsets + [x])[1..] == offsets[1..] + [x];
    } else {
      assert offsets + [x] == [x] && (offsets + [x])[1..] == [];
    }
  }

  lemma {:induction false} EncodeRingAppend(ring: seq<RingMember>, m: RingMember)
    ensures EncodeRing(ring + [m]) == EncodeRing(ring) + m.key + m.commitment
  {
    if ring != [] {
      EncodeRingAppend(ring[1..], m);
      assert (ring + [m])[1..] == ring[1..] + [m];
    } else {
      assert ring + [m] == [m] && (ring + [m])[1..] == [];
    }
  }

  method WriteOutput(input: SweepInput, keyOffset: Bytes, relative: seq<nat>, ghost o: OutputWithDecoys)
    returns (bytes: Bytes)
    requires |relative| < TWO64 && forall k :: 0 <= k < |relative| ==> relative[k] < TWO64
    requires o == OutputWithDecoys(input.oneTimeKey, keyOffset, input.mask, input.amount, relative,
                                   input.realIndex % 0x100, input.ring)
    ensures bytes == Encode(o)
  {
    hide EncodeLE, Leb, EncodeOffsets, EncodeRing;
    var buf := new ByteBuffer();
    buf.Extend(input.oneTimeKey);
    buf.Extend(keyOffset);
    buf.Extend(input.mask);
    buf.Extend(EncodeLE(input.amount, 8));
    WriteVarint(buf, |relative|);
    ghost var head := buf.data;
    assert EncodeOffsets([]) == [] by { NothingEncodes(); }
    for i := 0 to |relative|
      invariant buf.data == head + EncodeOffsets(relative[..i])
    {
      WriteVarint(buf, relative[i]);
      EncodeOffsetsAppend(relative[..i], relative[i]);
      assert relative[..i + 1] == relative[..i] + [relative[i]];
    }
    assert relative[..|relative|] == relative;
    buf.Push(input.realIndex % 0x100);
    head := buf.data;
    assert EncodeRing([]) == [] by { NothingEncodes(); }
    for j := 0 to |input.ring|
      invariant buf.data == head + EncodeRing(input.ring[..j])
    {
      buf.Extend(input.ring[j].key);
      buf.Extend(input.ring[j].commitment);
      EncodeRingAppend(input.ring[..j], input.ring[j]);
      assert input.ring[..j + 1] == input.ring[..j] + [input.ring[j]];
    }
    assert input.ring[..|input.ring|] == input.ring;
    return buf.data;
  }

  lemma NothingEncodes()
    ensures EncodeOffsets([]) == [] && EncodeRing([]) == []
  {
  }

  /** The bytes of an accepted input read back to exactly that input, with nothing left over, if and
      only if every offset has its ring member and the real index fits in a byte. */
  lemma BytesReadBackExactly(lib: MoneroLib, input: SweepInput, viewKey: Bytes, o: OutputWithDecoys)
    requires InputAccepted(lib, input, viewKey)
    requires Meant(lib, input, viewKey, o) && WellSized(o)
    ensures (Read(Encode(o)) == Some((o, [])) && o.signer == input.realIndex)
       <==> |input.keyOffsets| == |input.ring| && input.realIndex < 0x100
  {
    hide Encode, Read, Sort, KeyOffset;
    assert |o.offsets| == |input.keyOffsets|;
    ReadIsBalanced(Encode(o));
    if |o.ring| == |o.offsets| {
      ReadAfterEncode(o, []);
      assert Encode(o) + [] == Encode(o);
    }
  }
}
