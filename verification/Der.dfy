/** The DER codec of ECDSA signatures. */
module Der {
  import opened Wrappers
  import opened Bitcoin

  /** Drops leading zero bytes but always keeps the last byte. */
  function Trim(buf: Bytes): (r: Bytes)
    ensures |r| <= |buf| && buf[|buf| - |r|..] == r
    ensures forall i :: 0 <= i < |buf| - |r| ==> buf[i] == 0
    ensures buf != [] ==> r != [] && (|r| > 1 ==> r[0] != 0)
  {
    if |buf| <= 1 || buf[0] != 0 then buf
    else
      var r := Trim(buf[1..]);
      assert forall i :: 1 <= i < |buf| - |r| ==> buf[i] == buf[1..][i - 1];
      r
  }

  method TrimLeadingZeros(buf: Bytes) returns (r: Bytes)
    ensures r == Trim(buf)
  {
    var i := 0;
    while i < |buf| - 1 && buf[i] == 0
      invariant 0 <= i <= |buf|
      invariant Trim(buf) == Trim(buf[i..])
    {
      assert buf[i..][1..] == buf[i + 1..];
      i := i + 1;
    }
    return buf[i..];
  }

  function DerInteger(integer: Bytes): (r: Bytes)
    requires |integer| <= 33
    ensures |integer| + 2 <= |r| <= |integer| + 3
    ensures r[0] == 0x02 && r[1] == |r| - 2
    ensures r[2..] == integer || r[2..] == [0] + integer
  {
    var value := if integer != [] && integer[0] >= 0x80 then [0] + integer else integer;
    [0x02, |value|] + value
  }

  function DerSequence(r: Bytes, s: Bytes): Bytes
    requires |r| + |s| < 0x100
  {
    [0x30, |r| + |s|] + r + s
  }

  /** None where the code throws on a length other than 64. The one-byte body length cannot overflow. */
  function CompactToDer(compact: Bytes): (r: Option<Bytes>)
    ensures r.Some? <==> |compact| == 64
  {
    if |compact| != 64 then None
    else
      Some(DerSequence(DerInteger(Trim(compact[..32])), DerInteger(Trim(compact[32..]))))
  }

  /** `subarray` clamps both ends. */
  function Subarray(bytes: Bytes, from: nat, to: nat): Bytes
    requires from <= to
  {
    if from >= |bytes| then [] else if to > |bytes| then bytes[from..] else bytes[from..to]
  }

  function PadTo32(buf: Bytes): (r: Bytes)
    ensures |r| == 32
  {
    if |buf| == 32 then buf
    else if |buf| > 32 then buf[|buf| - 32..]
    else seq(32 - |buf|, _ => 0) + buf
  }

  function TagAt(der: Bytes, i: nat): bool {
    i < |der| && der[i] == 0x02
  }

  /** One INTEGER at position i: its bytes and the position after it, or None where the code throws. */
  function ReadInteger(der: Bytes, i: nat): Option<(Bytes, nat)> {
    if !TagAt(der, i) || i + 1 >= |der| then None
    else Some((Subarray(der, i + 2, i + 2 + der[i + 1]), i + 2 + der[i + 1]))
  }

  function DerToCompact(der: Bytes): Option<Bytes> {
    if |der| < 8 || der[0] != 0x30 then None
    else
      var r := ReadInteger(der, 2);
      if r.None? then None
      else
        var s := ReadInteger(der, r.value.1);
        if s.None? then None else Some(PadTo32(r.value.0) + PadTo32(s.value.0))
  }

  method DecodeDer(der: Bytes) returns (c: Option<Bytes>)
    ensures c == DerToCompact(der)
  {
    hide PadTo32, Subarray;
    if |der| < 8 || der[0] != 0x30 { return None; }
    var i: nat := 2;
    if i >= |der| || der[i] != 0x02 { return None; }
    if i + 1 >= |der| { return None; }
    var rLen := der[i + 1];
    var r := Subarray(der, i + 2, i + 2 + rLen);
    i := i + 2 + rLen;
    if i >= |der| || der[i] != 0x02 { return None; }
    if i + 1 >= |der| { return None; }
    var sLen := der[i + 1];
    var s := Subarray(der, i + 2, i + 2 + sLen);
    return Some(PadTo32(r) + PadTo32(s));
  }

  lemma PadFills(buf: Bytes)
    requires |buf| <= 32
    ensures PadTo32(buf) == seq(32 - |buf|, _ => 0) + buf
  {
    assert |buf| == 32 ==> seq(32 - |buf|, _ => 0) + buf == buf;
  }

  lemma PadCuts(buf: Bytes)
    requires |buf| == 33
    ensures PadTo32(buf) == buf[1..]
  {
  }

  lemma PadUndoesTrim(half: Bytes)
    requires |half| == 32
    ensures PadTo32(Trim(half)) == half
    ensures PadTo32([0] + Trim(half)) == half
  {
    hide Trim, PadTo32;
    var t := Trim(half);
    PadFills(t);
    if |t| < 32 { PadFills([0] + t); } else { PadCuts([0] + t); }
    assert half == half[..32 - |t|] + t;
    assert forall i :: 0 <= i < 32 - |t| ==> half[i] == 0;
    if |t| == 32 {
      assert ([0] + t)[1..] == t;
    } else {
      assert half[..32 - |t|] == seq(32 - |t|, _ => 0);
      OneZeroMore(31 - |t|, t);
    }
  }

  lemma OneZeroMore(n: nat, t: Bytes)
    ensures seq(n + 1, _ => 0) + t == seq(n, _ => 0) + ([0] + t)
  {
    assert seq(n + 1, _ => 0) == seq(n, _ => 0) + [0];
  }

  /** An encoded integer reads back, wherever it stands. */
  lemma ReadsBack(before: Bytes, integer: Bytes, after: Bytes)
    requires 0 < |integer| <= 32
    ensures var der := before + DerInteger(integer) + after;
            ReadInteger(der, |before|)
            == Some((DerInteger(integer)[2..], |before| + |DerInteger(integer)|))
  {
    var e := DerInteger(integer);
    var der := before + e + after;
    assert der[|before|] == e[0] && der[|before| + 1] == e[1];
    assert Subarray(der, |before| + 2, |before| + |e|) == e[2..];
  }

  /** Decoding undoes encoding on every 64-byte signature. */
  lemma DerRoundTrip(compact: Bytes)
    requires |compact| == 64
    ensures DerToCompact(CompactToDer(compact).value) == Some(compact)
  {
    hide Trim, DerInteger, ReadInteger, PadTo32;
    var r, s := Trim(compact[..32]), Trim(compact[32..]);
    var rEnc, sEnc := DerInteger(r), DerInteger(s);
    var head: Bytes := [0x30, |rEnc| + |sEnc|];
    var der := CompactToDer(compact).value;
    assert der == head + rEnc + sEnc;
    assert der == (head + rEnc) + sEnc + [];
    assert der[0] == 0x30 && |der| >= 8;
    ReadsBack(head, r, sEnc);
    ReadsBack(head + rEnc, s, []);
    PadUndoesTrim(compact[..32]);
    PadUndoesTrim(compact[32..]);
    assert compact == compact[..32] + compact[32..];
  }

  /** An INTEGER of BIP 66's strict encoding: not empty, not negative, no needless leading zero. */
  predicate StrictInteger(v: Bytes) {
    && v != []
    && v[0] < 0x80
    && !(|v| > 1 && v[0] == 0 && v[1] < 0x80)
  }

  /** BIP 66, "DER encoding reference", on a signature followed by its sighash byte. */
  predicate StrictSignature(sig: Bytes) {
    && 9 <= |sig| <= 73
    && sig[0] == 0x30 && sig[1] == |sig| - 3
    && var lenR := sig[3];
    && 5 + lenR < |sig|
    && var lenS := sig[5 + lenR];
    && lenR + lenS + 7 == |sig|
    && sig[2] == 0x02 && StrictInteger(sig[4..4 + lenR])
    && sig[lenR + 4] == 0x02 && StrictInteger(sig[lenR + 6..lenR + 6 + lenS])
  }

  lemma EncodedStrictly(half: Bytes)
    requires |half| == 32
    ensures StrictInteger(DerInteger(Trim(half))[2..])
  {
  }

  /** What the encoder produces, plus the sighash byte, is strictly encoded. */
  lemma EncodingIsStrict(compact: Bytes, sighash: Byte)
    requires |compact| == 64
    ensures StrictSignature(CompactToDer(compact).value + [sighash])
  {
    hide Trim, DerInteger, StrictInteger;
    var r, s := DerInteger(Trim(compact[..32])), DerInteger(Trim(compact[32..]));
    EncodedStrictly(compact[..32]);
    EncodedStrictly(compact[32..]);
    var sig := [0x30, |r| + |s|] + r + s + [sighash];
    var lenR := |r| - 2;
    assert sig[3] == r[1] && sig[5 + lenR] == s[1];
    assert sig[2] == 0x02 && sig[lenR + 4] == 0x02;
    assert sig[4..4 + lenR] == r[2..];
    assert sig[lenR + 6..lenR + 6 + (|s| - 2)] == s[2..];
  }
}
