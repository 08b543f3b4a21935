/** The recovery snapshot and its integrity check. The hash, from a canonical text to the hexadecimal
    digest of its UTF-8 bytes, is a parameter. */
module Snapshot {
  import opened Wrappers
  import opened Json
  import opened Canonical

  type Hash = Units -> Units

  datatype Input = Input(
    swapId: Units, externalSwapId: Units, keystoreId: Units, network: Units, capturedByVersion: Units,
    capturedAtEpochMs: int, protocolParams: Value, lockTx: Value, maker: Value, chain: Value,
    phaseMarker: Option<Units>)

  const VERSION := 2

  const DIGEST: Units := Ascii("digest")
  const SNAPSHOT_VERSION: Units := Ascii("snapshotVersion")
  const CAPTURED_AT_EPOCH_MS: Units := Ascii("capturedAtEpochMs")
  const CAPTURED_BY: Units := Ascii("capturedBy")
  const CAPTURED_BY_VERSION: Units := Ascii("capturedByVersion")
  const PHASE_MARKER: Units := Ascii("phaseMarker")
  const SWAP_ID: Units := Ascii("swapId")
  const EXTERNAL_SWAP_ID: Units := Ascii("externalSwapId")
  const KEYSTORE_ID: Units := Ascii("keystoreId")
  const NETWORK: Units := Ascii("network")
  const PROTOCOL_PARAMS: Units := Ascii("protocolParams")
  const LOCK_TX: Units := Ascii("lockTx")
  const MAKER: Units := Ascii("maker")
  const CHAIN: Units := Ascii("chain")
  const CLIENT: Units := Ascii("miradex-client")
  const FUNDED: Units := Ascii("funded-with-encsigs")

  predicate ProperInput(input: Input) {
    Proper(input.protocolParams) && Proper(input.lockTx) && Proper(input.maker) && Proper(input.chain)
  }

  function Header(input: Input): seq<Member> {
    [ Member(SNAPSHOT_VERSION, Num(VERSION)),
      Member(CAPTURED_AT_EPOCH_MS, Num(input.capturedAtEpochMs)),
      Member(CAPTURED_BY, Str(CLIENT)),
      Member(CAPTURED_BY_VERSION, Str(input.capturedByVersion)),
      Member(PHASE_MARKER, Str(OrElse(input.phaseMarker, FUNDED))) ]
  }

  function Ids(input: Input): seq<Member> {
    [ Member(SWAP_ID, Str(input.swapId)),
      Member(EXTERNAL_SWAP_ID, Str(input.externalSwapId)),
      Member(KEYSTORE_ID, Str(input.keystoreId)),
      Member(NETWORK, Str(input.network)) ]
  }

  function Parts(input: Input): seq<Member> {
    [ Member(PROTOCOL_PARAMS, input.protocolParams),
      Member(LOCK_TX, input.lockTx),
      Member(MAKER, input.maker),
      Member(CHAIN, input.chain) ]
  }

  function Body(input: Input): seq<Member> {
    Header(input) + Ids(input) + Parts(input)
  }

  function ComputeSnapshotDigest(h: Hash, body: Value): Units {
    h(CanonicalSerialize(body))
  }

  function BuildProtocolSnapshot(h: Hash, input: Input): Value {
    var body := Body(input);
    Obj(body + [Member(DIGEST, Str(ComputeSnapshotDigest(h, Obj(body))))])
  }

  /** The members left when `digest` is taken out. */
  function Others(ms: seq<Member>): seq<Member> {
    if ms == [] then []
    else (if ms[0].key == DIGEST then [] else [ms[0]]) + Others(ms[1..])
  }

  function DigestOf(ms: seq<Member>): Option<Value> {
    if ms == [] then None
    else if ms[0].key == DIGEST then Some(ms[0].value)
    else DigestOf(ms[1..])
  }

  predicate VerifySnapshotIntegrity(h: Hash, snapshot: Value)
    requires snapshot.Obj?
  {
    DigestOf(snapshot.members) == Some(Str(ComputeSnapshotDigest(h, Obj(Others(snapshot.members)))))
  }

  /* ----- taking the digest out ----- */

  lemma {:induction false} OthersAre(ms: seq<Member>)
    requires DistinctKeys(ms)
    ensures DistinctKeys(Others(ms))
    ensures forall m :: m in Others(ms) <==> m in ms && m.key != DIGEST
  {
    if ms != [] {
      OthersAre(ms[1..]);
      var rest := Others(ms[1..]);
      assert ms == [ms[0]] + ms[1..];
      assert forall k :: 0 <= k < |rest| ==> rest[k] in ms[1..];
    }
  }

  lemma {:induction false} DigestIs(ms: seq<Member>)
    requires DistinctKeys(ms)
    ensures DigestOf(ms).Some? ==> Member(DIGEST, DigestOf(ms).value) in ms
    ensures forall m :: m in ms && m.key == DIGEST ==> DigestOf(ms) == Some(m.value)
  {
    if ms != [] {
      DigestIs(ms[1..]);
      assert ms == [ms[0]] + ms[1..];
      assert ms[0] == Member(ms[0].key, ms[0].value);
    }
  }

  ghost predicate Agree(ms: seq<Member>, ns: seq<Member>) {
    forall m, n :: m in ms && n in ns && m.key == n.key ==> Same(m.value, n.value)
  }

  lemma SameByMembers(ms: seq<Member>, ns: seq<Member>)
    ensures Same(Obj(ms), Obj(ns)) <==> Keys(ms) == Keys(ns) && Agree(ms, ns)
  {
    hide Keys;
    if Keys(ms) == Keys(ns) && Same(Obj(ms), Obj(ns)) {
      forall m, n | m in ms && n in ns && m.key == n.key ensures Same(m.value, n.value) {
        var i :| 0 <= i < |ms| && ms[i] == m;
        var j :| 0 <= j < |ns| && ns[j] == n;
      }
    }
    if Agree(ms, ns) {
      assert forall i :: 0 <= i < |ms| ==> ms[i] in ms;
      assert forall j :: 0 <= j < |ns| ==> ns[j] in ns;
    }
  }

  /** With equal digests, two objects are the same exactly when the rest of them is. */
  lemma SameButForDigest(ms: seq<Member>, ns: seq<Member>)
    requires DistinctKeys(ms) && DistinctKeys(ns)
    requires DigestOf(ms) == DigestOf(ns) && DigestOf(ms).Some? && DigestOf(ms).value.Str?
    ensures Same(Obj(ms), Obj(ns)) <==> Same(Obj(Others(ms)), Obj(Others(ns)))
  {
    hide Same, DigestOf, Others, DistinctKeys, Keys, Agree;
    SameByMembers(ms, ns);
    SameByMembers(Others(ms), Others(ns));
    RestSplits(ms, ns);
  }

  lemma StringsAreSame(v: Value)
    requires v.Str?
    ensures Same(v, v)
  {
  }

  lemma RestSplits(ms: seq<Member>, ns: seq<Member>)
    requires DistinctKeys(ms) && DistinctKeys(ns)
    requires DigestOf(ms) == DigestOf(ns) && DigestOf(ms).Some? && DigestOf(ms).value.Str?
    ensures Keys(ms) == Keys(ns) <==> Keys(Others(ms)) == Keys(Others(ns))
    ensures Agree(ms, ns) <==> Agree(Others(ms), Others(ns))
  {
    hide Same, DigestOf, Others, DistinctKeys, Keys;
    OthersAre(ms);
    OthersAre(ns);
    KeysSplit(ms);
    KeysSplit(ns);
    assert Keys(ms) == Keys(Others(ms)) + {DIGEST} && Keys(ns) == Keys(Others(ns)) + {DIGEST};
    if Agree(Others(ms), Others(ns)) {
      forall m, n | m in ms && n in ns && m.key == n.key ensures Same(m.value, n.value) {
        if m.key == DIGEST {
          DigestIs(ms);
          DigestIs(ns);
          StringsAreSame(m.value);
        }
      }
    }
  }

  lemma KeysSplit(ms: seq<Member>)
    requires DistinctKeys(ms) && DigestOf(ms).Some?
    ensures Keys(Others(ms)) == Keys(ms) - {DIGEST} && DIGEST in Keys(ms)
  {
    hide DigestOf, Others, DistinctKeys;
    OthersAre(ms);
    DigestIs(ms);
  }

  lemma SameDigest(ms: seq<Member>, ns: seq<Member>)
    requires DistinctKeys(ms) && DistinctKeys(ns) && Same(Obj(ms), Obj(ns))
    requires DigestOf(ms).Some? && DigestOf(ms).value.Str?
    ensures DigestOf(ns) == DigestOf(ms)
  {
    hide DigestOf, DistinctKeys;
    DigestIs(ms);
    DigestIs(ns);
    SameByMembers(ms, ns);
    var d := Member(DIGEST, DigestOf(ms).value);
    assert d.key in Keys(ms) && d.key in Keys(ns);
    var n :| n in ns && n.key == d.key;
    assert Same(d.value, n.value);
  }

  lemma OthersStayProper(v: Value)
    requires Proper(v) && v.Obj?
    ensures Proper(Obj(Others(v.members)))
  {
    OthersAre(v.members);
    var rest := Others(v.members);
    forall k | 0 <= k < |rest| ensures Proper(rest[k].value) {
      assert rest[k] in v.members;
    }
  }

  /* ----- what the check means ----- */

  /** Putting members in another order, at any depth, does not break the check. */
  lemma ReorderedSnapshotVerifies(h: Hash, v: Value, w: Value)
    requires Proper(v) && Proper(w) && v.Obj? && w.Obj? && Same(v, w)
    requires VerifySnapshotIntegrity(h, v)
    ensures VerifySnapshotIntegrity(h, w)
  {
    hide Same, Proper, Others, DigestOf, CanonicalSerialize;
    assert DistinctKeys(v.members) && DistinctKeys(w.members) by { ProperObjects(v); ProperObjects(w); }
    SameDigest(v.members, w.members);
    SameButForDigest(v.members, w.members);
    OthersStayProper(v);
    OthersStayProper(w);
    CanonicalTextDecides(Obj(Others(v.members)), Obj(Others(w.members)));
  }

  lemma ProperObjects(v: Value)
    requires Proper(v) && v.Obj?
    ensures DistinctKeys(v.members)
  {
  }

  ghost predicate Injective(h: Hash) {
    forall s, t :: h(s) == h(t) ==> s == t
  }

  /** Of all the objects carrying the digest of an intact snapshot, the check passes exactly those that
      differ from it in member order only: any other change is caught. */
  lemma ChangedSnapshotFailsExactly(h: Hash, v: Value, w: Value)
    requires Injective(h)
    requires Proper(v) && Proper(w) && v.Obj? && w.Obj? && DigestOf(w.members) == DigestOf(v.members)
    requires VerifySnapshotIntegrity(h, v)
    ensures VerifySnapshotIntegrity(h, w) <==> Same(v, w)
  {
    hide Same, Proper, Others, DigestOf, CanonicalSerialize;
    assert DistinctKeys(v.members) && DistinctKeys(w.members) by { ProperObjects(v); ProperObjects(w); }
    SameButForDigest(v.members, w.members);
    OthersStayProper(v);
    OthersStayProper(w);
    CanonicalTextDecides(Obj(Others(v.members)), Obj(Others(w.members)));
  }

  lemma BodyIsProper(input: Input)
    requires ProperInput(input)
    ensures Proper(Obj(Body(input)))
    ensures forall m :: m in Body(input) ==> m.key != DIGEST
  {
    var ms := Body(input);
    assert |ms| == 13;
    assert ms[0].key[0] == 115 && ms[0].key[1] == 110;
    assert |ms[0].key| == 15 && |ms[1].key| == 17 && |ms[2].key| == 10 && ms[2].key != ms[11].key;
    assert |ms[3].key| == 17 && ms[3].key[8] == 66 && ms[1].key[8] == 65;
    assert |ms[4].key| == 11 && |ms[5].key| == 6 && |ms[6].key| == 14 && |ms[8].key| == 7 && |ms[11].key| == 5;
    assert |ms[7].key| == 10 && ms[7].key[0] == 107 && ms[2].key[0] == 99;
    assert |ms[9].key| == 14 && ms[9].key[0] == 112 && ms[6].key[0] == 101;
    assert |ms[10].key| == 6 && ms[10].key[0] == 108 && ms[5].key[0] == 115;
    assert |ms[12].key| == 5 && ms[12].key[0] == 99 && ms[11].key[0] == 109;
    assert |DIGEST| == 6 && DIGEST[0] == 100;
    assert DistinctKeys(ms);
  }

  lemma {:induction false} NothingToTakeOut(ms: seq<Member>, d: Value)
    requires forall m :: m in ms ==> m.key != DIGEST
    ensures Others(ms + [Member(DIGEST, d)]) == ms && DigestOf(ms + [Member(DIGEST, d)]) == Some(d)
  {
    var all := ms + [Member(DIGEST, d)];
    if ms != [] {
      NothingToTakeOut(ms[1..], d);
      assert all[1..] == ms[1..] + [Member(DIGEST, d)] && ms == [ms[0]] + ms[1..];
      assert ms[0] in ms;
    }
  }

  lemma BuiltSnapshotVerifies(h: Hash, input: Input)
    requires ProperInput(input)
    ensures Proper(BuildProtocolSnapshot(h, input)) && VerifySnapshotIntegrity(h, BuildProtocolSnapshot(h, input))
  {
    hide Body, Others, DigestOf, CanonicalSerialize;
    BodyIsProper(input);
    NothingToTakeOut(Body(input), Str(ComputeSnapshotDigest(h, Obj(Body(input)))));
    var ms := BuildProtocolSnapshot(h, input).members;
    assert forall i :: 0 <= i < |ms| - 1 ==> ms[i] in Body(input) && Proper(ms[i].value);
  }

  lemma BuiltIsObject(h: Hash, input: Input)
    ensures BuildProtocolSnapshot(h, input).Obj?
  {
  }

  lemma OnlyObjectsAreSame(v: Value, w: Value)
    requires v.Obj? && Same(v, w)
    ensures w.Obj?
  {
  }

  /** A built snapshot still passes after being written out as JSON, with any indentation, and read back. */
  lemma ReloadedSnapshotVerifies(h: Hash, input: Input, gap: nat)
    requires ProperInput(input)
    ensures var loaded := Parse(Pretty(BuildProtocolSnapshot(h, input), gap, 0));
      loaded.Some? && loaded.value.Obj? && VerifySnapshotIntegrity(h, loaded.value)
  {
    hide BuildProtocolSnapshot, VerifySnapshotIntegrity, Parse, Serialize, Pretty, Proper, ProperInput, Same;
    var built := BuildProtocolSnapshot(h, input);
    ParseIgnoresIndentation(built, gap);
    assert built.Obj? by { BuiltIsObject(h, input); }
    BuiltSnapshotVerifies(h, input);
    ParseUndoesStringify(built);
    assert Parse(Serialize(built)).value.Obj? by { OnlyObjectsAreSame(built, Parse(Serialize(built)).value); }
    ReorderedSnapshotVerifies(h, built, Parse(Serialize(built)).value);
  }

  /* ----- what a recovery tool reads back ----- */

  /** The object has the member, up to the order of members inside its value. */
  ghost predicate Carries(v: Value, m: Member)
    requires v.Obj?
  {
    exists n :: n in v.members && n.key == m.key && Same(m.value, n.value)
  }

  lemma SameCarries(v: Value, w: Value, m: Member)
    requires v.Obj? && w.Obj? && Same(v, w) && m in v.members
    ensures Carries(w, m)
  {
    hide Same, Keys;
    SameByMembers(v.members, w.members);
    assert m.key in Keys(w.members) by { KeyOfMember(v.members, m); }
    var n := MemberWithKey(w.members, m.key);
  }

  lemma KeyOfMember(ms: seq<Member>, m: Member)
    requires m in ms
    ensures m.key in Keys(ms)
  {
  }

  lemma MemberWithKey(ms: seq<Member>, k: Units) returns (m: Member)
    requires k in Keys(ms)
    ensures m in ms && m.key == k
  {
    m :| m in ms && m.key == k;
  }

  predicate Spells(u: Units, name: string) {
    |u| == |name| && forall i :: 0 <= i < |u| ==> u[i] == name[i] as int
  }

  /** The names of the fields, and what the client writes of its own. */
  lemma NamesAreSpelled()
    ensures Spells(DIGEST, "digest") && Spells(SNAPSHOT_VERSION, "snapshotVersion") && VERSION == 2
    ensures Spells(CAPTURED_AT_EPOCH_MS, "capturedAtEpochMs") && Spells(CAPTURED_BY, "capturedBy")
    ensures Spells(CAPTURED_BY_VERSION, "capturedByVersion") && Spells(PHASE_MARKER, "phaseMarker")
    ensures Spells(SWAP_ID, "swapId") && Spells(EXTERNAL_SWAP_ID, "externalSwapId")
    ensures Spells(KEYSTORE_ID, "keystoreId") && Spells(NETWORK, "network")
    ensures Spells(PROTOCOL_PARAMS, "protocolParams") && Spells(LOCK_TX, "lockTx")
    ensures Spells(MAKER, "maker") && Spells(CHAIN, "chain")
    ensures Spells(CLIENT, "miradex-client") && Spells(FUNDED, "funded-with-encsigs")
  {
  }

  /** Each field of the input is found, after writing and reading, under the name it belongs to. */
  lemma ReloadedSnapshotCarriesInput(h: Hash, input: Input, gap: nat)
    requires ProperInput(input)
    ensures var loaded := Parse(Pretty(BuildProtocolSnapshot(h, input), gap, 0));
      loaded.Some? && loaded.value.Obj?
      && Carries(loaded.value, Member(SNAPSHOT_VERSION, Num(VERSION)))
      && Carries(loaded.value, Member(CAPTURED_AT_EPOCH_MS, Num(input.capturedAtEpochMs)))
      && Carries(loaded.value, Member(CAPTURED_BY, Str(CLIENT)))
      && Carries(loaded.value, Member(PHASE_MARKER, Str(OrElse(input.phaseMarker, FUNDED))))
      && Carries(loaded.value, Member(CAPTURED_BY_VERSION, Str(input.capturedByVersion)))
      && Carries(loaded.value, Member(SWAP_ID, Str(input.swapId)))
      && Carries(loaded.value, Member(EXTERNAL_SWAP_ID, Str(input.externalSwapId)))
      && Carries(loaded.value, Member(KEYSTORE_ID, Str(input.keystoreId)))
      && Carries(loaded.value, Member(NETWORK, Str(input.network)))
      && Carries(loaded.value, Member(PROTOCOL_PARAMS, input.protocolParams))
      && Carries(loaded.value, Member(LOCK_TX, input.lockTx))
      && Carries(loaded.value, Member(MAKER, input.maker))
      && Carries(loaded.value, Member(CHAIN, input.chain))
  {
    hide BuildProtocolSnapshot, Parse, Serialize, Pretty, Proper, ProperInput, Same, Carries, Body, Header, Ids, Parts;
    var built := BuildProtocolSnapshot(h, input);
    ParseIgnoresIndentation(built, gap);
    BuiltSnapshotVerifies(h, input);
    ReloadedSnapshotVerifies(h, input, gap);
    ParseUndoesStringify(built);
    assert built.Obj? by { BuiltIsObject(h, input); }
    var loaded := Parse(Serialize(built)).value;
    forall m | m in Header(input) + Ids(input) + Parts(input) ensures Carries(loaded, m) {
      assert m in built.members by { BuiltHolds(h, input, m); }
      SameCarries(built, loaded, m);
    }
    FieldsAre(input);
  }

  lemma BuiltHolds(h: Hash, input: Input, m: Member)
    requires m in Header(input) + Ids(input) + Parts(input)
    ensures BuildProtocolSnapshot(h, input).Obj? && m in BuildProtocolSnapshot(h, input).members
  {
    hide Header, Ids, Parts, ComputeSnapshotDigest;
  }

  lemma FieldsAre(input: Input)
    ensures var fields := Header(input) + Ids(input) + Parts(input);
      && Member(SNAPSHOT_VERSION, Num(VERSION)) in fields
      && Member(CAPTURED_AT_EPOCH_MS, Num(input.capturedAtEpochMs)) in fields
      && Member(CAPTURED_BY, Str(CLIENT)) in fields
      && Member(PHASE_MARKER, Str(OrElse(input.phaseMarker, FUNDED))) in fields
      && Member(CAPTURED_BY_VERSION, Str(input.capturedByVersion)) in fields
      && Member(SWAP_ID, Str(input.swapId)) in fields
      && Member(EXTERNAL_SWAP_ID, Str(input.externalSwapId)) in fields
      && Member(KEYSTORE_ID, Str(input.keystoreId)) in fields
      && Member(NETWORK, Str(input.network)) in fields
      && Member(PROTOCOL_PARAMS, input.protocolParams) in fields
      && Member(LOCK_TX, input.lockTx) in fields
      && Member(MAKER, input.maker) in fields
      && Member(CHAIN, input.chain) in fields
  {
    var a, b, c := Header(input), Ids(input), Parts(input);
    assert a[0] in a && a[1] in a && a[2] in a && a[3] in a && a[4] in a;
    assert b[0] in b && b[1] in b && b[2] in b && b[3] in b;
    assert c[0] in c && c[1] in c && c[2] in c && c[3] in c;
  }
}
