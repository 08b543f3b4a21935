/** Transactions, scripts and the library functions the swap code calls.
    Hashing, signing and address coding live in libraries that are not modelled: they are
    arbitrary total functions held in a `Lib` value, and whatever a theorem needs of them
    (injectivity, decode after encode) is an explicit hypothesis. */
module Bitcoin {
  import opened Wrappers

  type Byte = x: int | 0 <= x < 256 witness 0
  type Bytes = seq<Byte>

  datatype Network = Mainnet | Testnet | Regtest

  const SEQUENCE_FINAL: nat := 0xffff_ffff

  datatype OutPoint = OutPoint(txid: string, vout: nat)
  datatype TxIn = TxIn(prev: OutPoint, sequence: nat)
  datatype TxOut = TxOut(script: Bytes, value: int)

  /** A transaction without its witnesses, which are not part of what its id commits to. */
  datatype Tx = Tx(version: nat, locktime: nat, ins: seq<TxIn>, outs: seq<TxOut>)

  datatype Lib = Lib(
    hex: string -> Bytes,
    sha256: Bytes -> Bytes,
    txid: Tx -> string,
    address: (Bytes, Network) -> string,
    outputScript: (string, Network) -> Option<Bytes>,
    publicKey: string -> Option<string>,
    sighash: (Tx, nat, Bytes, int) -> string,
    sign: (string, string) -> string,
    encsign: (string, string, string) -> string,
    dleqValid: (string, string, string) -> bool
  )

  /** The lock script: <A> OP_CHECKSIGVERIFY <B> OP_CHECKSIG, both keys 33 bytes. */
  function WitnessScript(a: Bytes, b: Bytes): Bytes {
    [0x21] + a + [0xad] + [0x21] + b + [0xac]
  }

  function MultisigScript(lib: Lib, aHex: string, bHex: string): Option<Bytes> {
    var a, b := lib.hex(aHex), lib.hex(bHex);
    if |a| != 33 || |b| != 33 then None else Some(WitnessScript(a, b))
  }

  function P2wsh(lib: Lib, script: Bytes): Bytes {
    [0x00, 0x20] + lib.sha256(script)
  }

  function LockAddress(lib: Lib, aHex: string, bHex: string, network: Network): Option<string> {
    var script := MultisigScript(lib, aHex, bHex);
    if script.None? then None else Some(lib.address(P2wsh(lib, script.value), network))
  }

  /** The first output that pays `script`, or None. */
  function FindOutput(outs: seq<TxOut>, script: Bytes): (r: Option<nat>)
    ensures r.Some? ==> r.value < |outs| && outs[r.value].script == script
    ensures r.Some? ==> forall j :: 0 <= j < r.value ==> outs[j].script != script
    ensures r.None? ==> forall j :: 0 <= j < |outs| ==> outs[j].script != script
  {
    if outs == [] then None
    else if outs[0].script == script then Some(0)
    else
      var rest := FindOutput(outs[1..], script);
      if rest.None? then
        assert forall j :: 1 <= j < |outs| ==> outs[j] == outs[1..][j - 1];
        None
      else
        assert forall j :: 1 <= j < |outs| ==> outs[j] == outs[1..][j - 1];
        Some(rest.value + 1)
  }

  ghost predicate Sha256Injective(lib: Lib) {
    forall x, y :: lib.sha256(x) == lib.sha256(y) ==> x == y
  }

  ghost predicate TxidInjective(lib: Lib) {
    forall x, y :: lib.txid(x) == lib.txid(y) ==> x == y
  }

  /** Decoding an address the library encoded gives back the script. */
  ghost predicate AddressRoundTrip(lib: Lib) {
    forall s, n :: lib.outputScript(lib.address(s, n), n) == Some(s)
  }

  /** A lock script determines both keys. */
  lemma WitnessScriptInjective(a: Bytes, b: Bytes, a': Bytes, b': Bytes)
    requires |a| == |a'| == 33 && |b| == |b'| == 33
    requires WitnessScript(a, b) == WitnessScript(a', b')
    ensures a == a' && b == b'
  {
    var s, s' := WitnessScript(a, b), WitnessScript(a', b');
    assert s[1..34] == a && s'[1..34] == a';
    assert s[36..69] == b && s'[36..69] == b';
  }

  /** With script hashing injective, an output paying the (A', B) lock is an output paying the
      (A, B) lock only when A' and A decode to the same key. */
  lemma P2wshBindsKeys(lib: Lib, a: string, b: string, a': string, b': string)
    requires Sha256Injective(lib)
    requires MultisigScript(lib, a, b).Some? && MultisigScript(lib, a', b').Some?
    requires P2wsh(lib, MultisigScript(lib, a, b).value) == P2wsh(lib, MultisigScript(lib, a', b').value)
    ensures lib.hex(a) == lib.hex(a') && lib.hex(b) == lib.hex(b')
  {
    var s, s' := MultisigScript(lib, a, b).value, MultisigScript(lib, a', b').value;
    assert P2wsh(lib, s)[2..] == lib.sha256(s) && P2wsh(lib, s')[2..] == lib.sha256(s');
    WitnessScriptInjective(lib.hex(a), lib.hex(b), lib.hex(a'), lib.hex(b'));
  }

  /** The transaction object the builders fill step by step. */
  class Transaction {
    var version: nat
    var locktime: nat
    var ins: seq<TxIn>
    var outs: seq<TxOut>

    constructor ()
      ensures version == 1 && locktime == 0 && ins == [] && outs == []
    {
      version, locktime, ins, outs := 1, 0, [], [];
    }

    function Value(): Tx
      reads this
    {
      Tx(version, locktime, ins, outs)
    }

    method AddInput(prev: OutPoint, sequence: nat)
      modifies this`ins
      ensures ins == old(ins) + [TxIn(prev, sequence)]
    {
      ins := ins + [TxIn(prev, sequence)];
    }

    method AddOutput(script: Bytes, value: int)
      modifies this`outs
      ensures outs == old(outs) + [TxOut(script, value)]
    {
      outs := outs + [TxOut(script, value)];
    }
  }

  /** The search `findMultisigOutput` runs over the outputs. */
  method FindMultisigOutput(outs: seq<TxOut>, script: Bytes) returns (r: Option<nat>)
    ensures r == FindOutput(outs, script)
    ensures r.Some? <==> exists j :: 0 <= j < |outs| && outs[j].script == script
  {
    for i := 0 to |outs|
      invariant forall j :: 0 <= j < i ==> outs[j].script != script
    {
      if outs[i].script == script {
        return Some(i);
      }
    }
    return None;
  }
}
