/** Quorum readers: what a caller may rely on when some providers lie. */
module Quorum {
  import opened Wrappers
  import opened Settled
  import opened Sorting
  import opened Text
  import opened Tally

  predicate Any<T>(item: T) { true }

  // ----- UTXOs and history -----

  datatype Utxo = Utxo(txid: string, vout: int, value: int, confirmations: int)
  datatype HistoryEntry = HistoryEntry(txHash: string, height: int)
  datatype Vault = Vault(chain: string, address: string, halted: bool, tradingPaused: bool)

  function UtxoKey(u: Utxo): string {
    u.txid + ":" + Decimal(u.vout) + ":" + Decimal(u.value)
  }

  function HistoryKey(h: HistoryEntry): string {
    h.txHash + ":" + Decimal(h.height)
  }

  function VaultKey(v: Vault): string {
    v.chain + ":" + v.address
  }

  /** Equal keys are equal outputs, whatever text a provider sends as txid. */
  lemma UtxoKeyInjective(u: Utxo, w: Utxo)
    requires UtxoKey(u) == UtxoKey(w)
    ensures u.txid == w.txid && u.vout == w.vout && u.value == w.value
  {
    LastColonSplits(u.txid + ":" + Decimal(u.vout), Decimal(u.value), w.txid + ":" + Decimal(w.vout), Decimal(w.value));
    LastColonSplits(u.txid, Decimal(u.vout), w.txid, Decimal(w.vout));
    DecimalInjective(u.vout, w.vout);
    DecimalInjective(u.value, w.value);
  }

  lemma HistoryKeyInjective(h: HistoryEntry, g: HistoryEntry)
    requires HistoryKey(h) == HistoryKey(g)
    ensures h == g
  {
    LastColonSplits(h.txHash, Decimal(h.height), g.txHash, Decimal(g.height));
    DecimalInjective(h.height, g.height);
  }

  predicate SamePair(v: Vault, w: Vault) {
    v.chain == w.chain && v.address == w.address
  }

  /** Two vaults with one key are the same (chain, address) pair exactly when their chain names are
      equally long. */
  lemma VaultKeyInjective(v: Vault, w: Vault)
    requires VaultKey(v) == VaultKey(w)
    ensures SamePair(v, w) <==> |v.chain| == |w.chain|
  {
    var t := VaultKey(v);
    assert t[..|v.chain|] == v.chain && t[|v.chain| + 1..] == v.address;
    assert t[..|w.chain|] == w.chain && t[|w.chain| + 1..] == w.address;
  }

  /** A vault shares its key with no other pair exactly when neither its chain name nor its address
      holds a colon. */
  lemma VaultKeyUnambiguousExactly(v: Vault)
    ensures (forall w :: VaultKey(w) == VaultKey(v) ==> SamePair(v, w)) <==> ColonFree(v.chain) && ColonFree(v.address)
  {
    if ColonFree(v.chain) && ColonFree(v.address) {
      forall w | VaultKey(w) == VaultKey(v) ensures SamePair(v, w) {
        OneColon(v, w);
        VaultKeyInjective(v, w);
      }
    } else if !ColonFree(v.chain) {
      var i :| 0 <= i < |v.chain| && v.chain[i] == ':';
      var w := Vault(v.chain[..i], v.chain[i + 1..] + ":" + v.address, false, false);
      assert VaultKey(w) == VaultKey(v);
      assert !SamePair(v, w);
    } else {
      var i :| 0 <= i < |v.address| && v.address[i] == ':';
      var w := Vault(v.chain + ":" + v.address[..i], v.address[i + 1..], false, false);
      assert VaultKey(w) == VaultKey(v);
      assert !SamePair(v, w);
    }
  }

  /** A key with a single colon splits there. */
  lemma OneColon(v: Vault, w: Vault)
    requires ColonFree(v.chain) && ColonFree(v.address) && VaultKey(w) == VaultKey(v)
    ensures |w.chain| == |v.chain|
  {
    var t := VaultKey(v);
    assert t[|v.chain|] == ':' && t[|w.chain|] == ':';
    assert forall i :: 0 <= i < |t| && i != |v.chain| ==> t[i] != ':';
  }

  /** Two different vaults with one key, whose chain names both hold colons. */
  lemma VaultKeysCanCollide()
    ensures VaultKey(Vault("A:b", "c:d", false, false)) == VaultKey(Vault("A:b:c", "d", false, false))
  {
    assert VaultKey(Vault("A:b", "c:d", false, false)) == "A:b:c:d";
    assert VaultKey(Vault("A:b:c", "d", false, false)) == "A:b:c:d";
  }

  /** What a quorum reader returns: one item for each key that enough providers report, the first one reported. */
  ghost predicate IsQuorumSet<T(!new), K(!new)>(settled: seq<Option<seq<T>>>, key: T -> K, quorum: int,
                                                accepted: seq<T>) {
    && (forall k :: HasKey(accepted, key, k) <==>
          |Reporting(settled, key, k)| >= 1 && |Reporting(settled, key, k)| >= quorum)
    && (forall i, j :: 0 <= i < j < |accepted| ==> key(accepted[i]) != key(accepted[j]))
    && (forall i :: 0 <= i < |accepted| ==> FirstReported(settled, key, accepted[i]))
  }

  lemma MergeIsQuorumSet<T(!new), K(!new)>(settled: seq<Option<seq<T>>>, key: T -> K, quorum: int)
    ensures Sound(TallyOf(Fulfilled(settled), key), key)
    ensures var t := TallyOf(Fulfilled(settled), key);
      IsQuorumSet(settled, key, quorum, Accepted(t, t.order, quorum, Any))
  {
    hide Fulfilled, FirstReported, HasKey, Reports, Reporting, TallyOf, Deciding;
    var lists := Fulfilled(settled);
    MergeIsTheQuorumSet(lists, key, quorum, Any);
    var t := TallyOf(lists, key);
    AcceptedExactly(t, t.order, key, quorum, Any);
    forall k ensures Reports(lists, key, k) == |Reporting(settled, key, k)| {
      ReportsAreProviders(settled, key, k);
    }
    var accepted := Accepted(t, t.order, quorum, Any);
    forall i | 0 <= i < |accepted| ensures FirstReported(settled, key, accepted[i]) {
      DecidingIsFirst(lists, key, key(accepted[i]));
      DecidingIsFirstReported(settled, key, key(accepted[i]));
    }
  }

  /** The merged UTXO set: the outputs that at least `quorum` providers report. */
  method PickQuorumUtxos(settled: seq<Option<seq<Utxo>>>, quorum: int) returns (accepted: seq<Utxo>)
    ensures IsQuorumSet(settled, UtxoKey, quorum, accepted)
  {
    hide IsQuorumSet;
    accepted := MergeByKey(Fulfilled(settled), UtxoKey, quorum, Any);
    MergeIsQuorumSet(settled, UtxoKey, quorum);
  }

  method PickQuorumHistory(settled: seq<Option<seq<HistoryEntry>>>, quorum: int) returns (accepted: seq<HistoryEntry>)
    ensures IsQuorumSet(settled, HistoryKey, quorum, accepted)
  {
    hide IsQuorumSet;
    accepted := MergeByKey(Fulfilled(settled), HistoryKey, quorum, Any);
    MergeIsQuorumSet(settled, HistoryKey, quorum);
  }

  predicate Live(v: Vault) {
    !v.halted && !v.tradingPaused
  }

  /** Vaults in at least two sources whose first-seen report is live. */
  method ReconcileVaults(lists: seq<seq<Vault>>) returns (accepted: seq<Vault>)
    ensures Sound(TallyOf(lists, VaultKey), VaultKey)
    ensures forall k :: Reports(lists, VaultKey, k) >= 1 <==> k in TallyOf(lists, VaultKey).first
    ensures forall k :: HasKey(accepted, VaultKey, k)
                   <==> Reports(lists, VaultKey, k) >= 2 && !TallyOf(lists, VaultKey).first[k].halted
                        && !TallyOf(lists, VaultKey).first[k].tradingPaused
    ensures forall i, j :: 0 <= i < j < |accepted| ==> VaultKey(accepted[i]) != VaultKey(accepted[j])
  {
    accepted := MergeByKey(lists, VaultKey, 2, Live);
    MergeIsTheQuorumSet(lists, VaultKey, 2, Live);
  }

  /** The merged set does not depend on the order in which providers answer. */
  lemma MergeIgnoresOrder<T(!new), K(!new)>(a: seq<seq<T>>, b: seq<seq<T>>, key: T -> K, quorum: int)
    requires multiset(a) == multiset(b)
    ensures Sound(TallyOf(a, key), key) && Sound(TallyOf(b, key), key)
    ensures var x := Accepted(TallyOf(a, key), TallyOf(a, key).order, quorum, Any);
            var y := Accepted(TallyOf(b, key), TallyOf(b, key).order, quorum, Any);
            forall k :: HasKey(x, key, k) <==> HasKey(y, key, k)
  {
    MergeIsTheQuorumSet(a, key, quorum, Any);
    MergeIsTheQuorumSet(b, key, quorum, Any);
    forall k ensures Reports(a, key, k) == Reports(b, key, k) {
      ReportsIgnoreOrder(a, b, key, k);
    }
  }

  /** With fewer faulty providers than the quorum, an honest one reported every key of a quorum set. */
  lemma MergedIsHonest<T(!new), K(!new)>(settled: seq<Option<seq<T>>>, key: T -> K, quorum: int, accepted: seq<T>,
                                         faulty: set<nat>, n: nat) returns (i: nat)
    requires |faulty| < quorum && IsQuorumSet(settled, key, quorum, accepted) && n < |accepted|
    ensures i < |settled| && i !in faulty && settled[i].Some? && HasKey(settled[i].value, key, key(accepted[n]))
  {
    assert HasKey(accepted, key, key(accepted[n]));
    i := SomeHonest(Reporting(settled, key, key(accepted[n])), faulty);
  }

  /** More providers than there are faulty ones hold an honest one. */
  lemma SomeHonest(providers: set<nat>, faulty: set<nat>) returns (i: nat)
    requires |faulty| < |providers|
    ensures i in providers && i !in faulty
  {
    if providers <= faulty {
      SubsetIsSmall(providers, faulty);
      assert false;
    }
    i :| i in providers && i !in faulty;
  }

  lemma {:induction false} SubsetIsSmall(a: set<nat>, b: set<nat>)
    requires a <= b
    ensures |a| <= |b|
  {
    if a != {} {
      var x :| x in a;
      SubsetIsSmall(a - {x}, b - {x});
    }
  }

  /** The vault merge does depend on the order: only the first-seen report's flags are read. */
  lemma VaultMergeDependsOnOrder(live: Vault, halted: Vault)
    requires VaultKey(live) == VaultKey(halted) && Live(live) && !Live(halted)
    ensures var k := VaultKey(live);
            && TallyOf([[live], [halted]], VaultKey) == Tally([k], map[k := live], map[k := 2])
            && TallyOf([[halted], [live]], VaultKey) == Tally([k], map[k := halted], map[k := 2])
    ensures Accepted(Tally([VaultKey(live)], map[VaultKey(live) := live], map[VaultKey(live) := 2]), [VaultKey(live)],
                     2, Live) == [live]
    ensures Accepted(Tally([VaultKey(live)], map[VaultKey(live) := halted], map[VaultKey(live) := 2]), [VaultKey(live)],
                     2, Live) == []
  {
    TallyOfTwo(live, halted);
    TallyOfTwo(halted, live);
    assert [VaultKey(live)][..0] == [];
  }

  lemma TallyOfTwo(v: Vault, w: Vault)
    requires VaultKey(v) == VaultKey(w)
    ensures TallyOf([[v], [w]], VaultKey) == Tally([VaultKey(v)], map[VaultKey(v) := v], map[VaultKey(v) := 2])
  {
    var lists := [[v], [w]];
    assert lists[..1] == [[v]] && lists[..1][..0] == [];
    AddSingle(Empty(), v, VaultKey);
    AddSingle(TallyOf(lists[..1], VaultKey), w, VaultKey);
    assert TallyOf(lists[..1], VaultKey) == Bump(Empty(), VaultKey(v), v);
  }

  // ----- strings -----

  /** Each value as a list of its own: counting values is counting such lists. */
  function Singles<T>(values: seq<T>): (r: seq<seq<T>>)
    ensures |r| == |values| && forall i :: 0 <= i < |r| ==> r[i] == [values[i]]
  {
    seq(|values|, i requires 0 <= i < |values| => [values[i]])
  }

  function Same(s: string): string { s }

  ghost function Votes(values: seq<string>, v: string): nat {
    Reports(Singles(values), Same, v)
  }

  function FirstReaching(t: Tally<string, string>, order: seq<string>, quorum: int): (r: Option<string>)
    requires forall k :: k in order ==> k in t.count
    ensures r.Some? ==> r.value in order && t.count[r.value] >= quorum
    ensures r.None? ==> forall k :: k in order ==> t.count[k] < quorum
  {
    if order == [] then None
    else if t.count[order[0]] >= quorum then Some(order[0])
    else FirstReaching(t, order[1..], quorum)
  }

  /** The providers that sent a value. */
  ghost function Voters(settled: seq<Option<string>>, v: string): set<nat> {
    set i: nat | i < |settled| && settled[i] == Some(v)
  }

  lemma {:induction false} VotesAreVoters(settled: seq<Option<string>>, v: string)
    ensures Votes(Fulfilled(settled), v) == |Voters(settled, v)|
  {
    hide Votes, Fulfilled, Voters;
    if settled == [] {
      NoVotes(v);
    } else {
      var n := |settled| - 1;
      VotesAreVoters(settled[..n], v);
      FulfilledLast(settled);
      VotersLast(settled, v);
      if settled[n].Some? { OneMoreVote(Fulfilled(settled[..n]), settled[n].value, v); }
    }
  }

  lemma NoVotes(v: string)
    ensures Votes(Fulfilled<string>([]), v) == 0 && Voters([], v) == {}
  {
  }

  lemma VotersLast(settled: seq<Option<string>>, v: string)
    requires settled != []
    ensures var n := |settled| - 1;
      |Voters(settled, v)| == |Voters(settled[..n], v)| + if settled[n] == Some(v) then 1 else 0
  {
    var n := |settled| - 1;
    var before := Voters(settled[..n], v);
    assert Voters(settled, v) == before + (if settled[n] == Some(v) then {n} else {}) && n !in before;
  }

  lemma OneMoreVote(values: seq<string>, x: string, v: string)
    ensures Votes(values + [x], v) == Votes(values, v) + if x == v then 1 else 0
  {
    var all := Singles(values + [x]);
    assert all[..|values|] == Singles(values) && all[|values|] == [x];
    assert HasKey([x], Same, v) <==> x == v by {
      if x == v { assert Same([x][0]) == v; }
    }
  }

  /** A value that a quorum of providers sent, and of those the one sent first; None where there is none. */
  ghost predicate IsQuorumString(settled: seq<Option<string>>, quorum: int, r: Option<string>) {
    && (r.None? ==> forall v :: |Voters(settled, v)| >= 1 ==> |Voters(settled, v)| < quorum)
    && (r.Some? ==> |Voters(settled, r.value)| >= 1 && |Voters(settled, r.value)| >= quorum
                    && FirstToReach(settled, quorum, r.value))
  }

  /** The values sent before this one was first sent do not reach the quorum. */
  ghost predicate FirstToReach(settled: seq<Option<string>>, quorum: int, v: string) {
    exists i :: 0 <= i < |settled| && settled[i] == Some(v)
                && forall j :: 0 <= j < i && settled[j].Some? ==> |Voters(settled, settled[j].value)| < quorum
  }

  /** A value with a quorum of votes, or None where the code throws. */
  method PickQuorumString(settled: seq<Option<string>>, quorum: int) returns (r: Option<string>)
    ensures IsQuorumString(settled, quorum, r)
  {
    hide Fulfilled, FirstReaching, Reports, AddList, IsQuorumString;
    var values := Fulfilled(settled);
    ghost var lists := Singles(values);
    var t: Tally<string, string> := Empty();
    for i := 0 to |values|
      invariant t == TallyOf(lists[..i], Same)
    {
      AddSingle(t, values[i], Same);
      t := Bump(t, values[i], values[i]);
      assert lists[..i + 1][..i] == lists[..i];
    }
    assert lists[..|values|] == lists;
    QuorumStringMeaning(values, quorum);
    FirstReachingIsQuorumString(settled, quorum);
    for i := 0 to |t.order|
      invariant FirstReaching(t, t.order, quorum) == FirstReaching(t, t.order[i..], quorum)
    {
      FirstReachingStep(t, t.order[i..], quorum);
      assert t.order[i..][1..] == t.order[i + 1..];
      if t.count[t.order[i]] >= quorum { return Some(t.order[i]); }
    }
    return None;
  }

  lemma FirstReachingStep(t: Tally<string, string>, order: seq<string>, quorum: int)
    requires order != [] && forall k :: k in order ==> k in t.count
    ensures FirstReaching(t, order, quorum)
         == if t.count[order[0]] >= quorum then Some(order[0]) else FirstReaching(t, order[1..], quorum)
  {
  }

  /** What the first key to reach the quorum says about the votes. */
  lemma QuorumStringMeaning(values: seq<string>, quorum: int)
    ensures Sound(TallyOf(Singles(values), Same), Same)
    ensures var t := TallyOf(Singles(values), Same);
            var r := FirstReaching(t, t.order, quorum);
            && (r.Some? ==> Votes(values, r.value) >= 1 && Votes(values, r.value) >= quorum)
            && (r.None? ==> forall v :: Votes(values, v) >= 1 ==> Votes(values, v) < quorum)
  {
    hide FirstReaching, TallyOf, Reports;
    TallyCountsReports(Singles(values), Same);
    assert forall v :: Votes(values, v) == CountOf(TallyOf(Singles(values), Same), v);
  }

  lemma FirstReachingIsQuorumString(settled: seq<Option<string>>, quorum: int)
    ensures var t := TallyOf(Singles(Fulfilled(settled)), Same);
      Sound(t, Same) && IsQuorumString(settled, quorum, FirstReaching(t, t.order, quorum))
  {
    hide Fulfilled, TallyOf, Reports, FirstReaching, FirstToReach;
    var values := Fulfilled(settled);
    var t := TallyOf(Singles(values), Same);
    QuorumStringMeaning(values, quorum);
    forall v ensures Votes(values, v) == |Voters(settled, v)| {
      VotesAreVoters(settled, v);
    }
    if FirstReaching(t, t.order, quorum).Some? {
      WinnerIsFirst(settled, quorum);
    }
  }

  /** The values in the order in which they are first sent. */
  function Firsts(values: seq<string>): (r: seq<string>)
    ensures forall v :: v in r <==> v in values
  {
    if values == [] then []
    else
      var n := |values| - 1;
      assert values == values[..n] + [values[n]];
      if values[n] in values[..n] then Firsts(values[..n]) else Firsts(values[..n]) + [values[n]]
  }

  lemma {:induction false} OrderIsFirsts(values: seq<string>)
    ensures TallyOf(Singles(values), Same).order == Firsts(values)
  {
    var lists := Singles(values);
    TallyCountsReports(lists, Same);
    if values != [] {
      var n := |values| - 1;
      assert lists[..n] == Singles(values[..n]) && lists[n] == [values[n]];
      OrderIsFirsts(values[..n]);
      TallyCountsReports(lists[..n], Same);
      var t := TallyOf(lists[..n], Same);
      AddSingle(t, values[n], Same);
      assert values[n] in t.order <==> values[n] in t.count;
    }
  }

  /** What stands before the first place of a value stands before it in the order, too. */
  lemma {:induction false} FirstsPrefix(values: seq<string>, i: nat)
    requires i <= |values|
    ensures Firsts(values[..i]) <= Firsts(values)
  {
    if i < |values| {
      FirstsPrefix(values[..|values| - 1], i);
      assert values[..|values| - 1][..i] == values[..i];
    } else {
      assert values[..i] == values;
    }
  }

  lemma {:induction false} ReachingIsFirst(t: Tally<string, string>, order: seq<string>, quorum: int) returns (m: nat)
    requires forall k :: k in order ==> k in t.count
    requires FirstReaching(t, order, quorum).Some?
    ensures m < |order| && order[m] == FirstReaching(t, order, quorum).value
    ensures forall i :: 0 <= i < m ==> t.count[order[i]] < quorum
  {
    if t.count[order[0]] >= quorum {
      m := 0;
    } else {
      var m' := ReachingIsFirst(t, order[1..], quorum);
      m := m' + 1;
      assert forall i :: 1 <= i < m ==> order[i] == order[1..][i - 1];
    }
  }

  lemma WinnerIsFirst(settled: seq<Option<string>>, quorum: int)
    requires var t := TallyOf(Singles(Fulfilled(settled)), Same);
      (forall k :: k in t.order ==> k in t.count) && FirstReaching(t, t.order, quorum).Some?
    ensures var t := TallyOf(Singles(Fulfilled(settled)), Same);
      FirstToReach(settled, quorum, FirstReaching(t, t.order, quorum).value)
  {
    hide Fulfilled, TallyOf, Reports, FirstReaching, Firsts;
    var values, places := Fulfilled(settled), Places(settled);
    var t := TallyOf(Singles(values), Same);
    var v := FirstReaching(t, t.order, quorum).value;
    QuorumStringMeaning(values, quorum);
    OneForOne(settled);
    OrderIsFirsts(values);
    var m := ReachingIsFirst(t, t.order, quorum);
    var i := FirstPlace(values, v);
    FirstsPrefix(values, i);
    forall j | 0 <= j < places[i] && settled[j].Some? ensures |Voters(settled, settled[j].value)| < quorum {
      var x :| 0 <= x < |places| && places[x] == j;
      assert x < i && values[x] == settled[j].value;
      assert values[x] in values[..i] by { assert values[..i][x] == values[x]; }
      BelowQuorum(values, t, v, m, i, values[x], quorum);
      VotesAreVoters(settled, values[x]);
    }
  }

  lemma {:induction false} FirstPlace(values: seq<string>, v: string) returns (i: nat)
    requires v in values
    ensures i < |values| && values[i] == v && v !in values[..i]
  {
    if values[0] == v {
      i := 0;
    } else {
      var i' := FirstPlace(values[1..], v);
      i := i' + 1;
      assert values[..i] == [values[0]] + values[1..][..i'];
    }
  }

  /** An element of a prefix without v stands before v. */
  lemma StandsBefore<T>(before: seq<T>, order: seq<T>, v: T, m: nat, x: T) returns (n: nat)
    requires before <= order && m < |order| && order[m] == v && v !in before && x in before
    ensures n < m && order[n] == x
  {
    assert forall q :: 0 <= q < |before| ==> order[q] == before[q] && order[q] != v;
    n :| 0 <= n < |before| && before[n] == x;
  }

  lemma BelowQuorum(values: seq<string>, t: Tally<string, string>, v: string, m: nat, i: nat, x: string, quorum: int)
    requires t == TallyOf(Singles(values), Same) && t.order == Firsts(values)
    requires forall k :: k in t.order ==> k in t.count
    requires m < |t.order| && t.order[m] == v && i <= |values| && v !in values[..i] && x in values[..i]
    requires Firsts(values[..i]) <= t.order
    requires forall n :: 0 <= n < m ==> t.count[t.order[n]] < quorum
    ensures Votes(values, x) < quorum
  {
    hide TallyOf, Firsts, Votes, Singles;
    var n := StandsBefore(Firsts(values[..i]), t.order, v, m, x);
    CountIsVotes(values, x);
  }

  lemma CountIsVotes(values: seq<string>, x: string)
    ensures var t := TallyOf(Singles(values), Same); x in t.count ==> t.count[x] == Votes(values, x)
  {
    TallyCountsReports(Singles(values), Same);
  }

  /** The agreed string is the only one with a quorum when twice the quorum exceeds the answers. */
  lemma QuorumStringIsUnique(settled: seq<Option<string>>, quorum: int, v: string, w: string)
    requires 2 * quorum > |Where(settled, _ => true)|
    requires |Voters(settled, v)| >= quorum && |Voters(settled, w)| >= quorum
    ensures v == w
  {
    if v != w {
      var both := Voters(settled, v) + Voters(settled, w);
      assert Voters(settled, v) !! Voters(settled, w);
      SubsetIsSmall(both, Where(settled, _ => true));
      assert false;
    }
  }

  /** With fewer faulty providers than the quorum an honest one sent the agreed string. */
  lemma QuorumStringIsHonest(settled: seq<Option<string>>, quorum: int, v: string, faulty: set<nat>) returns (i: nat)
    requires |faulty| < quorum <= |Voters(settled, v)|
    ensures i < |settled| && i !in faulty && settled[i] == Some(v)
  {
    i := SomeHonest(Voters(settled, v), faulty);
  }
}
