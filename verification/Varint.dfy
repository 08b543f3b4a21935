/** The three varint writers (unsigned LEB128) and the reader they share. */
module Varint {
  import opened Wrappers
  import opened Bitcoin

  const TWO32: nat := 0x1_0000_0000
  const TWO64: nat := 0x1_0000_0000_0000_0000

  /** Seven bits a byte, least significant first, the top bit meaning "more follows". */
  function Leb(v: nat): (r: Bytes)
    ensures |r| >= 1
  {
    if v < 0x80 then [v] else [v % 0x80 + 0x80] + Leb(v / 0x80)
  }

  /** Reads one varint: its value and the bytes after it. */
  function Decode(bytes: Bytes): Option<(nat, Bytes)> {
    if bytes == [] then None
    else if bytes[0] < 0x80 then Some((bytes[0], bytes[1..]))
    else
      match Decode(bytes[1..])
      case None => None
      case Some((n, rest)) => Some((bytes[0] - 0x80 + 0x80 * n, rest))
  }

  /** Whatever follows it, a written varint reads back as itself and ends where it ended. */
  lemma {:induction false} DecodeAfterEncode(v: nat, tail: Bytes)
    ensures Decode(Leb(v) + tail) == Some((v, tail))
  {
    var bytes := Leb(v) + tail;
    if v < 0x80 {
      assert bytes[1..] == tail;
    } else {
      DecodeAfterEncode(v / 0x80, tail);
      assert bytes[1..] == Leb(v / 0x80) + tail;
    }
  }

  /** The code is prefix-free: two writings that agree with what follows them agree outright. */
  lemma PrefixFree(v: nat, w: nat, s: Bytes, t: Bytes)
    requires Leb(v) + s == Leb(w) + t
    ensures v == w && s == t
  {
    DecodeAfterEncode(v, s);
    DecodeAfterEncode(w, t);
  }

  function Pow128(k: nat): nat {
    if k == 0 then 1 else 0x80 * Pow128(k - 1)
  }

  lemma {:induction false} LebLength(v: nat, k: nat)
    requires k >= 1 && v < Pow128(k)
    ensures |Leb(v)| <= k
  {
    if v >= 0x80 {
      assert Pow128(1) == 0x80;
      assert v / 0x80 < Pow128(k - 1);
      LebLength(v / 0x80, k - 1);
    }
  }

  lemma Pow128Ten()
    ensures Pow128(10) == 0x40_0000_0000_0000_0000
  {
  }

  /** One byte of the code, appended to what is written already. */
  lemma LebStep(before: Bytes, v: nat)
    ensures v < 0x80 ==> before + Leb(v) == before + [v]
    ensures v >= 0x80 ==> before + Leb(v) == (before + [v % 0x80 + 0x80]) + Leb(v / 0x80)
  {
    if v >= 0x80 {
      assert before + ([v % 0x80 + 0x80] + Leb(v / 0x80)) == (before + [v % 0x80 + 0x80]) + Leb(v / 0x80);
    }
  }

  /** The low 32 bits of a number have its low seven bits. */
  lemma LowBits(value: nat)
    ensures value % TWO32 % 0x80 == value % 0x80
  {
    var q, r := value / TWO32, value % TWO32;
    assert r == 0x80 * (r / 0x80) + r % 0x80;
    assert value == 0x80 * (0x200_0000 * q + r / 0x80) + r % 0x80;
    RemainderUnique(value, 0x200_0000 * q + r / 0x80, r % 0x80);
  }

  /** So has its low byte. */
  lemma LowByte(value: nat)
    ensures value % 0x100 % 0x80 == value % 0x80
  {
    var q, r := value / 0x100, value % 0x100;
    assert value == 0x80 * (2 * q + r / 0x80) + r % 0x80;
    RemainderUnique(value, 2 * q + r / 0x80, r % 0x80);
  }

  lemma RemainderUnique(n: nat, q: nat, r: nat)
    requires n == 0x80 * q + r && r < 0x80
    ensures n % 0x80 == r
  {
  }

  /** The TypeScript writer. Its operators work on the low 32 bits of the number. */
  method EncodeVarintTs(value: nat) returns (bytes: Bytes)
    ensures bytes == Leb(value % TWO32)
  {
    hide Leb;
    bytes := [];
    var v: nat := value;
    ghost var rest := value % TWO32;
    LebStep([], rest);
    assert [] + Leb(rest) == Leb(rest);
    LowBits(value);
    var b := v % 0x80;
    v := v % TWO32 / 0x80;
    if v != 0 { b := b + 0x80; }
    bytes := bytes + [b];
    while v != 0
      invariant v < TWO32
      invariant v != 0 ==> bytes + Leb(v) == Leb(rest)
      invariant v == 0 ==> bytes == Leb(rest)
      decreases v
    {
      LebStep(bytes, v);
      assert v % TWO32 == v;
      b := v % 0x80;
      v := v % TWO32 / 0x80;
      if v != 0 { b := b + 0x80; }
      bytes := bytes + [b];
    }
  }

  /** A growable byte buffer, Rust's Vec<u8>. */
  class ByteBuffer {
    var data: Bytes

    constructor ()
      ensures data == []
    {
      data := [];
    }

    method Push(b: Byte)
      modifies this
      ensures data == old(data) + [b]
    {
      data := data + [b];
    }

    method Extend(bytes: Bytes)
      modifies this
      ensures data == old(data) + bytes
    {
      data := data + bytes;
    }
  }

  /** The sweep's Rust writer appends to a buffer. */
  method WriteVarint(buf: ByteBuffer, value: nat)
    requires value < TWO64
    modifies buf
    ensures buf.data == old(buf.data) + Leb(value)
  {
    hide Leb;
    var v: nat := value;
    while v >= 0x80
      invariant v < TWO64
      invariant buf.data + Leb(v) == old(buf.data) + Leb(value)
      decreases v
    {
      LebStep(buf.data, v);
      LowByte(v);
      buf.Push(v % 0x100 % 0x80 + 0x80);
      v := v / 0x80;
    }
    LebStep(buf.data, v);
    buf.Push(v);
  }

  lemma LebShrinks(v: nat)
    ensures |Leb(v)| == if v < 0x80 then 1 else 1 + |Leb(v / 0x80)|
  {
  }

  /** The key-derivation writer fills a ten-byte array and returns how much it used; ten bytes are
      enough for every u64, so no index leaves the array. */
  method EncodeVarint(value: nat, buf: array<Byte>) returns (len: nat)
    requires value < TWO64 && buf.Length == 10
    modifies buf
    ensures len <= 10 && buf[..len] == Leb(value)
    ensures buf[len..] == old(buf[..])[len..]
  {
    assert |Leb(value)| <= 10 by {
      Pow128Ten();
      LebLength(value, 10);
    }
    hide Pow128, Leb;
    var v: nat, i: nat := value, 0;
    assert buf[..0] + Leb(value) == Leb(value);
    while v >= 0x80
      invariant i + |Leb(v)| <= 10
      invariant buf[..i] + Leb(v) == Leb(value)
      invariant forall j :: i <= j < 10 ==> buf[j] == old(buf[j])
      decreases v
    {
      ghost var before := buf[..i];
      LebStep(before, v);
      LebShrinks(v);
      LowByte(v);
      buf[i] := v % 0x100 % 0x80 + 0x80;
      assert buf[..i + 1] == before + [v % 0x80 + 0x80];
      v := v / 0x80;
      i := i + 1;
    }
    ghost var before := buf[..i];
    LebStep(before, v);
    LebShrinks(v);
    buf[i] := v;
    assert buf[..i + 1] == before + [v];
    return i + 1;
  }

  /** The TypeScript writer agrees with the Rust ones exactly below 2^32. */
  lemma WritersAgreeExactly(value: nat)
    ensures Leb(value % TWO32) == Leb(value) <==> value < TWO32
  {
    DecodeAfterEncode(value, []);
    DecodeAfterEncode(value % TWO32, []);
  }

  /** The bytes hashed to derive an output's scalar: the shared secret, then the output index. */
  function Preimage(d8: Bytes, index: nat): Bytes {
    d8 + Leb(index)
  }

  /** Distinct (secret, index) pairs are hashed from distinct bytes. */
  lemma PreimageInjective(d: Bytes, i: nat, d': Bytes, i': nat)
    requires |d| == |d'| == 32
    requires Preimage(d, i) == Preimage(d', i')
    ensures d == d' && i == i'
  {
    assert Preimage(d, i)[..32] == d && Preimage(d', i')[..32] == d';
    assert Leb(i) + [] == Preimage(d, i)[32..] && Leb(i') + [] == Preimage(d', i')[32..];
    PrefixFree(i, i', [], []);
  }
}
