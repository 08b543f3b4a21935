/** Byte codecs for ed25519 scalars, and addition modulo the group order of RFC 8032, section 5.1. */
module Scalars {
  import opened Bitcoin

  const GROUP_ORDER: int := 7237005577332262213973186563042994240857116359379907606001950938285454250989

  /** JavaScript's remainder takes the sign of the dividend. */
  function JsRem(a: int, b: int): int
    requires b > 0
  {
    if a >= 0 then a % b else -((-a) % b)
  }

  /** `((n % L) + L) % L` is the residue in 0..L-1, for negative numbers too. */
  lemma NormalisedResidue(n: int)
    ensures JsRem(JsRem(n, GROUP_ORDER) + GROUP_ORDER, GROUP_ORDER) == n % GROUP_ORDER
  {
    var m := JsRem(n, GROUP_ORDER);
    ModuloUnique(n, n % GROUP_ORDER, n / GROUP_ORDER);
    if n >= 0 {
      assert m + GROUP_ORDER == n % GROUP_ORDER + GROUP_ORDER;
      ModuloUnique(m + GROUP_ORDER, m, 1);
    } else {
      var q, r := (-n) / GROUP_ORDER, (-n) % GROUP_ORDER;
      if r == 0 {
        ModuloUnique(GROUP_ORDER, 0, 1);
        ModuloUnique(n, 0, -q);
      } else {
        ModuloUnique(GROUP_ORDER - r, GROUP_ORDER - r, 0);
        ModuloUnique(n, GROUP_ORDER - r, -q - 1);
      }
    }
  }

  lemma ModuloUnique(n: int, r: int, q: int)
    requires n == r + GROUP_ORDER * q && 0 <= r < GROUP_ORDER
    ensures n % GROUP_ORDER == r
  {
  }

  lemma ModuloAdd(a: int, b: int)
    ensures (a + b) % GROUP_ORDER == (a % GROUP_ORDER + b % GROUP_ORDER) % GROUP_ORDER
  {
    var s := a % GROUP_ORDER + b % GROUP_ORDER;
    ModuloUnique(a + b, s % GROUP_ORDER, a / GROUP_ORDER + b / GROUP_ORDER + s / GROUP_ORDER);
  }

  /** The number a little-endian byte string spells. */
  function ValueLE(bytes: Bytes): nat {
    if bytes == [] then 0 else bytes[0] + 0x100 * ValueLE(bytes[1..])
  }

  /** The number a big-endian byte string spells. */
  function ValueBE(bytes: Bytes): nat {
    if bytes == [] then 0 else 0x100 * ValueBE(bytes[..|bytes| - 1]) + bytes[|bytes| - 1]
  }

  function EncodeLE(n: nat, k: nat): (r: Bytes)
    ensures |r| == k
  {
    if k == 0 then [] else [n % 0x100] + EncodeLE(n / 0x100, k - 1)
  }

  function Pow256(k: nat): nat {
    if k == 0 then 1 else 0x100 * Pow256(k - 1)
  }

  lemma {:induction false} Pow256Doubles(m: nat, n: nat)
    ensures Pow256(m + n) == Pow256(m) * Pow256(n)
  {
    if m > 0 {
      Pow256Doubles(m - 1, n);
    }
  }

  lemma Pow256At32()
    ensures Pow256(32) > 2 * GROUP_ORDER
  {
    assert Pow256(8) == 0x1_0000_0000_0000_0000;
    Pow256Doubles(8, 8);
    Pow256Doubles(16, 16);
    assert Pow256(16) == 0x1_0000_0000_0000_0000 * 0x1_0000_0000_0000_0000;
    assert Pow256(32) == Pow256(16) * Pow256(16);
  }

  lemma {:induction false} ValueOfEncoding(n: nat, k: nat)
    requires n < Pow256(k)
    ensures ValueLE(EncodeLE(n, k)) == n
  {
    if k > 0 {
      assert n / 0x100 < Pow256(k - 1);
      ValueOfEncoding(n / 0x100, k - 1);
      assert EncodeLE(n, k)[1..] == EncodeLE(n / 0x100, k - 1);
    }
  }

  lemma {:induction false} EncodingOfValue(bytes: Bytes)
    ensures EncodeLE(ValueLE(bytes), |bytes|) == bytes
    ensures ValueLE(bytes) < Pow256(|bytes|)
  {
    if bytes != [] {
      EncodingOfValue(bytes[1..]);
      assert ValueLE(bytes) % 0x100 == bytes[0] && ValueLE(bytes) / 0x100 == ValueLE(bytes[1..]);
      assert bytes == [bytes[0]] + bytes[1..];
    }
  }

  /** Reading a string backwards swaps the two byte orders. */
  lemma {:induction false} EndiannessIsReversal(bytes: Bytes)
    ensures ValueBE(Reversed(bytes)) == ValueLE(bytes)
  {
    if bytes != [] {
      EndiannessIsReversal(bytes[1..]);
      assert Reversed(bytes)[..|bytes| - 1] == Reversed(bytes[1..]);
    }
  }

  function Reversed(bytes: Bytes): (r: Bytes)
    ensures |r| == |bytes|
  {
    if bytes == [] then [] else Reversed(bytes[1..]) + [bytes[0]]
  }

  method BytesToBigIntLE(bytes: Bytes) returns (result: nat)
    ensures result == ValueLE(bytes)
  {
    result := 0;
    var i := |bytes| - 1;
    while i >= 0
      invariant -1 <= i < |bytes|
      invariant result == ValueLE(bytes[i + 1..])
    {
      assert bytes[i..][1..] == bytes[i + 1..];
      result := result * 0x100 + bytes[i];
      i := i - 1;
    }
  }

  method BytesToBigIntBE(bytes: Bytes) returns (result: nat)
    ensures result == ValueBE(bytes)
  {
    result := 0;
    for i := 0 to |bytes|
      invariant result == ValueBE(bytes[..i])
    {
      assert bytes[..i + 1][..i] == bytes[..i];
      result := result * 0x100 + bytes[i];
    }
    assert bytes[..|bytes|] == bytes;
  }

  /** 32 little-endian bytes of the number reduced modulo the group order. */
  function ScalarBytes(num: int): Bytes {
    EncodeLE(num % GROUP_ORDER, 32)
  }

  /** One byte of an encoding, appended to what is written already. */
  lemma EncodeStep(before: Bytes, n: nat, k: nat)
    ensures before + EncodeLE(n, k + 1) == (before + [n % 0x100]) + EncodeLE(n / 0x100, k)
  {
    assert before + ([n % 0x100] + EncodeLE(n / 0x100, k)) == (before + [n % 0x100]) + EncodeLE(n / 0x100, k);
  }

  lemma NothingLeft(n: nat)
    ensures EncodeLE(n, 0) == []
  {
  }

  method BigIntToBytes(num: int) returns (r: Bytes)
    ensures r == ScalarBytes(num)
  {
    hide EncodeLE, JsRem;
    var bytes := new Byte[32];
    NormalisedResidue(num);
    var n: nat := JsRem(JsRem(num, GROUP_ORDER) + GROUP_ORDER, GROUP_ORDER);
    assert bytes[..0] + EncodeLE(n, 32) == EncodeLE(n, 32);
    for i := 0 to 32
      invariant bytes[..i] + EncodeLE(n, 32 - i) == ScalarBytes(num)
    {
      ghost var before := bytes[..i];
      EncodeStep(before, n, 31 - i);
      bytes[i] := n % 0x100;
      n := n / 0x100;
      assert bytes[..i + 1] == before + [bytes[i]];
    }
    NothingLeft(n);
    assert bytes[..32] == bytes[..];
    return bytes[..];
  }

  /** A reduced scalar survives the byte codec. */
  lemma ScalarBytesValue(num: int)
    ensures |ScalarBytes(num)| == 32 && ValueLE(ScalarBytes(num)) == num % GROUP_ORDER
  {
    Pow256At32();
    hide Pow256;
    ValueOfEncoding(num % GROUP_ORDER, 32);
  }

  /** The sum of two scalars, as the function of their bytes that `AddScalars` computes. */
  function SumOfScalars(a: Bytes, b: Bytes): Bytes {
    ScalarBytes(ValueLE(a) + ValueLE(b))
  }

  lemma SumOfScalarsValue(a: Bytes, b: Bytes)
    ensures |SumOfScalars(a, b)| == 32
    ensures ValueLE(SumOfScalars(a, b)) == (ValueLE(a) % GROUP_ORDER + ValueLE(b) % GROUP_ORDER) % GROUP_ORDER
  {
    ScalarBytesValue(ValueLE(a) + ValueLE(b));
    ModuloAdd(ValueLE(a), ValueLE(b));
  }

  method AddScalars(a: Bytes, b: Bytes) returns (r: Bytes)
    ensures r == SumOfScalars(a, b)
    ensures ValueLE(r) == (ValueLE(a) + ValueLE(b)) % GROUP_ORDER
  {
    hide EncodeLE;
    var x := BytesToBigIntLE(a);
    var y := BytesToBigIntLE(b);
    var sum := (x + y) % GROUP_ORDER;
    r := BigIntToBytes(sum);
    ModuloUnique(sum, sum, 0);
    ScalarBytesValue(sum);
  }
}
