/** The lock script run on a witness, as far as its opcodes go, and the address form of its output. */
module Script {
  import opened Wrappers
  import opened Bitcoin

  const OP_CHECKSIG: Byte := 0xac
  const OP_CHECKSIGVERIFY: Byte := 0xad

  /** The stack after a script of pushes and signature checks; None when it fails. The last element of the
      stack is its top; `valid` says whether a signature is valid for a key. */
  function Execute(script: Bytes, stack: seq<Bytes>, valid: (Bytes, Bytes) -> bool): Option<seq<Bytes>>
    decreases |script|
  {
    if script == [] then Some(stack)
    else if 1 <= script[0] <= 75 then
      if |script| <= script[0] then None
      else Execute(script[1 + script[0]..], stack + [script[1..1 + script[0]]], valid)
    else if |stack| < 2 then None
    else
      var n := |stack| - 2;
      var ok := valid(stack[n + 1], stack[n]);
      if script[0] == OP_CHECKSIG then Execute(script[1..], stack[..n] + [if ok then [1] else []], valid)
      else if script[0] == OP_CHECKSIGVERIFY then if ok then Execute(script[1..], stack[..n], valid) else None
      else None
  }

  /** A witness satisfies a script that leaves exactly one element, and that one true. */
  predicate Accepts(script: Bytes, items: seq<Bytes>, valid: (Bytes, Bytes) -> bool) {
    Execute(script, items, valid) == Some([[1]])
  }

  /** The lock is spent with two signatures and nothing else: one valid for A on top, one valid for B below. */
  lemma LockNeedsBoth(a: Bytes, b: Bytes, items: seq<Bytes>, valid: (Bytes, Bytes) -> bool)
    requires |a| == |b| == 33
    ensures Accepts(WitnessScript(a, b), items, valid)
       <==> |items| == 2 && valid(a, items[1]) && valid(b, items[0])
  {
    var s := WitnessScript(a, b);
    var afterA := [0xad] + ([0x21] + (b + [0xac]));
    assert s[1..34] == a && s[34..] == afterA;
    assert Execute(s, items, valid) == Execute(afterA, items + [a], valid);
    if |items| > 0 {
      var n := |items| - 1;
      assert (items + [a])[..n] == items[..n];
      if valid(a, items[n]) {
        var fromB := [0x21] + (b + [0xac]);
        assert afterA[1..] == fromB;
        assert fromB[1..34] == b && fromB[34..] == [0xac];
        assert Execute(afterA, items + [a], valid) == Execute([0xac], items[..n] + [b], valid);
        LastCheck(items[..n], b, valid);
      }
    }
  }

  /** The same for the script made of two keys in hexadecimal. */
  lemma MultisigNeedsBoth(lib: Lib, aHex: string, bHex: string, items: seq<Bytes>, valid: (Bytes, Bytes) -> bool)
    ensures MultisigScript(lib, aHex, bHex).Some? <==> |lib.hex(aHex)| == |lib.hex(bHex)| == 33
    ensures MultisigScript(lib, aHex, bHex).Some? ==>
      (Accepts(MultisigScript(lib, aHex, bHex).value, items, valid)
       <==> |items| == 2 && valid(lib.hex(aHex), items[1]) && valid(lib.hex(bHex), items[0]))
  {
    hide Accepts, WitnessScript;
    if MultisigScript(lib, aHex, bHex).Some? { LockNeedsBoth(lib.hex(aHex), lib.hex(bHex), items, valid); }
  }

  lemma CheckSig(stack: seq<Bytes>, valid: (Bytes, Bytes) -> bool)
    ensures Execute([0xac], stack, valid) ==
      if |stack| < 2 then None
      else
        var n := |stack| - 2;
        Some(stack[..n] + [if valid(stack[n + 1], stack[n]) then [1] else []])
  {
  }

  lemma LastCheck(stack: seq<Bytes>, key: Bytes, valid: (Bytes, Bytes) -> bool)
    ensures Execute([0xac], stack + [key], valid) == Some([[1]]) <==> |stack| == 1 && valid(key, stack[0])
  {
    hide Execute;
    CheckSig(stack + [key], valid);
    if |stack| > 0 {
      var n := |stack| - 1;
      var left: seq<Bytes> := stack[..n] + [if valid(key, stack[n]) then [1] else []];
      assert (stack + [key])[..n] == stack[..n];
      assert left[n] == if valid(key, stack[n]) then [1] else [];
      if |stack| == 1 {
        assert left == [left[0]];
      } else {
        assert |left| != |[[1]]|;
      }
    }
  }

  /** The witness version and program of an output script (BIP 141), of version 0. */
  function WitnessProgram(script: Bytes): Option<Bytes> {
    if |script| >= 4 && script[0] == 0 && |script| - 2 == script[1] then Some(script[2..]) else None
  }

  /** A lock output is a version-0 witness output of the hash of the lock script. */
  lemma LockIsWitnessOutput(lib: Lib, script: Bytes)
    requires |lib.sha256(script)| == 32
    ensures WitnessProgram(P2wsh(lib, script)) == Some(lib.sha256(script))
  {
  }
}
