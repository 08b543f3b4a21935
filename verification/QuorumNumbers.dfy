/** Medians over provider answers: heights, Monero confirmations, swap quotes. */
module QuorumNumbers {
  import opened Wrappers
  import opened Sorting
  import opened Quorum
  import opened Settled

  datatype Test = AtMost(m: int) | AtLeast(m: int) | Near(m: int) | Whatever

  predicate Passes(t: Test, x: int) {
    match t
    case AtMost(m) => x <= m
    case AtLeast(m) => x >= m
    case Near(m) => -1 <= x - m <= 1
    case Whatever => true
  }

  function CountIf(s: seq<int>, t: Test): nat {
    if s == [] then 0 else CountIf(s[..|s| - 1], t) + if Passes(t, s[|s| - 1]) then 1 else 0
  }

  /** The element at position floor(n/2) of the sorted values; 0 when there is none. */
  function Median(values: seq<int>): int {
    if values == [] then 0 else Sort(values)[|values| / 2]
  }

  /** `getTransactionHeight`: the median, when a quorum of answers lies within one of it. A rejected
      or non-finite answer is None; so is the result where the code throws. */
  method PickQuorumNumber(settled: seq<Option<int>>, quorum: int) returns (r: Option<int>)
    ensures var median := Median(Fulfilled(settled));
            && (r.Some? <==> |Where(settled, _ => true)| >= quorum
                             && |Where(settled, x => -1 <= x - median <= 1)| >= quorum)
            && (r.Some? ==> r.value == median)
  {
    hide Sort, Fulfilled, Where;
    var values := Fulfilled(settled);
    AnswersAre(settled);
    PassersAre(settled, Near(Median(values)), x => -1 <= x - Median(values) <= 1);
    if |values| < quorum { return None; }
    var sorted := Sort(values);
    var median := if |sorted| / 2 < |sorted| then sorted[|sorted| / 2] else 0;
    var agreeing := 0;
    for i := 0 to |values|
      invariant agreeing == CountIf(values[..i], Near(median))
    {
      assert values[..i + 1][..i] == values[..i];
      if -1 <= values[i] - median <= 1 { agreeing := agreeing + 1; }
    }
    assert values[..|values|] == values;
    return if agreeing >= quorum then Some(median) else None;
  }

  /** The answers that pass a test are as many as the providers whose answer does. */
  lemma {:induction false} PassersAre(settled: seq<Option<int>>, t: Test, p: int -> bool)
    requires forall x :: p(x) <==> Passes(t, x)
    ensures CountIf(Fulfilled(settled), t) == |Where(settled, p)|
  {
    if settled != [] {
      var n := |settled| - 1;
      PassersAre(settled[..n], t, p);
      FulfilledLast(settled);
      WhereLast(settled, p);
      hide Fulfilled, Where;
      if settled[n].Some? {
        CountIfAppend(Fulfilled(settled[..n]), [settled[n].value], t);
        CountIfOne(settled[n].value, t);
      }
    }
  }

  /** The median of what the providers answered: at least half of them are at or below it, and more than half
      at or above. */
  lemma MedianSplitsProviders(settled: seq<Option<int>>)
    requires Fulfilled(settled) != []
    ensures var m, n := Median(Fulfilled(settled)), |Where(settled, _ => true)|;
      && 2 * |Where(settled, x => x <= m)| > n && 2 * |Where(settled, x => x >= m)| >= n
      && |Where(settled, x => x == m)| >= 1
  {
    hide Fulfilled, Where, Median;
    var values := Fulfilled(settled);
    var m := Median(values);
    MedianRank(values);
    AnswersAre(settled);
    PassersAre(settled, AtMost(m), x => x <= m);
    PassersAre(settled, AtLeast(m), x => x >= m);
    MedianIsAnAnswer(settled);
  }

  lemma MedianIsAnAnswer(settled: seq<Option<int>>)
    requires Fulfilled(settled) != []
    ensures |Where(settled, x => x == Median(Fulfilled(settled)))| >= 1
  {
    var values := Fulfilled(settled);
    var m := Median(values);
    assert m in Sort(values);
    hide Sort;
    OneForOne(settled);
    var i :| 0 <= i < |values| && values[i] == m;
    assert Places(settled)[i] in Where(settled, x => x == m);
  }

  /** With fewer faulty providers than the quorum, an accepted height is within one of an honest answer. */
  lemma AcceptedIsNearHonest(settled: seq<Option<int>>, quorum: int, faulty: set<nat>) returns (i: nat)
    requires |faulty| < quorum
    requires |Where(settled, x => -1 <= x - Median(Fulfilled(settled)) <= 1)| >= quorum
    ensures i < |settled| && i !in faulty && settled[i].Some?
    ensures -1 <= settled[i].value - Median(Fulfilled(settled)) <= 1
  {
    i := SomeHonest(Where(settled, x => -1 <= x - Median(Fulfilled(settled)) <= 1), faulty);
  }

  /** With fewer faulty providers than half of those that answer, the median lies between two honest answers. */
  lemma MedianIsBetweenProviders(settled: seq<Option<int>>, faulty: set<nat>) returns (i: nat, j: nat)
    requires 2 * |faulty| < |Where(settled, _ => true)|
    ensures i < |settled| && j < |settled| && i !in faulty && j !in faulty && settled[i].Some? && settled[j].Some?
    ensures settled[i].value <= Median(Fulfilled(settled)) <= settled[j].value
  {
    var m := Median(Fulfilled(settled));
    AnswersAre(settled);
    MedianSplitsProviders(settled);
    hide Fulfilled, Median;
    i := SomeHonest(Where(settled, x => x <= m), faulty);
    j := SomeHonest(Where(settled, x => x >= m), faulty);
  }

  lemma {:induction false} CountIfAppend(a: seq<int>, b: seq<int>, t: Test)
    ensures CountIf(a + b, t) == CountIf(a, t) + CountIf(b, t)
  {
    if b == [] {
      assert a + b == a;
    } else {
      assert (a + b)[..|a + b| - 1] == a + b[..|b| - 1];
      CountIfAppend(a, b[..|b| - 1], t);
    }
  }

  lemma {:induction false} CountIfAll(s: seq<int>, t: Test)
    requires forall i :: 0 <= i < |s| ==> Passes(t, s[i])
    ensures CountIf(s, t) == |s|
  {
    if s != [] {
      CountIfAll(s[..|s| - 1], t);
    }
  }

  lemma CountIfOne(x: int, t: Test)
    ensures CountIf([x], t) == if Passes(t, x) then 1 else 0
  {
    assert [x][..0] == [];
  }

  lemma {:induction false} CountIfInsert(x: int, s: seq<int>, t: Test)
    requires Ascending(s)
    ensures CountIf(Insert(x, s), t) == CountIf(s, t) + if Passes(t, x) then 1 else 0
  {
    CountIfOne(x, t);
    if s == [] || x <= s[0] {
      CountIfAppend([x], s, t);
    } else {
      CountIfInsert(x, s[1..], t);
      CountIfAppend([s[0]], Insert(x, s[1..]), t);
      CountIfAppend([s[0]], s[1..], t);
      assert s == [s[0]] + s[1..];
    }
  }

  /** Sorting changes no count. */
  lemma {:induction false} CountIfSort(s: seq<int>, t: Test)
    ensures CountIf(Sort(s), t) == CountIf(s, t)
  {
    if s != [] {
      CountIfSort(s[1..], t);
      CountIfInsert(s[0], Sort(s[1..]), t);
      CountIfOne(s[0], t);
      assert s == [s[0]] + s[1..];
      CountIfAppend([s[0]], s[1..], t);
    }
  }

  lemma RankFromBelow(s: seq<int>, k: nat)
    requires Ascending(s) && k < |s|
    ensures CountIf(s, AtMost(s[k])) >= k + 1
  {
    hide CountIf;
    assert s == s[..k + 1] + s[k + 1..];
    CountIfAppend(s[..k + 1], s[k + 1..], AtMost(s[k]));
    CountIfAll(s[..k + 1], AtMost(s[k]));
  }

  lemma RankFromAbove(s: seq<int>, k: nat)
    requires Ascending(s) && k < |s|
    ensures CountIf(s, AtLeast(s[k])) >= |s| - k
  {
    hide CountIf;
    assert s == s[..k] + s[k..];
    CountIfAppend(s[..k], s[k..], AtLeast(s[k]));
    CountIfAll(s[k..], AtLeast(s[k]));
  }

  /** More than half of the values, rounded down, are at most the median, and at least half, rounded
      up, are at least it. */
  lemma MedianRank(values: seq<int>)
    requires values != []
    ensures CountIf(values, AtMost(Median(values))) >= |values| / 2 + 1
    ensures CountIf(values, AtLeast(Median(values))) >= |values| - |values| / 2
  {
    hide Sort, CountIf;
    RankFromBelow(Sort(values), |values| / 2);
    RankFromAbove(Sort(values), |values| / 2);
    CountIfSort(values, AtMost(Median(values)));
    CountIfSort(values, AtLeast(Median(values)));
  }

  lemma {:induction false} FaultyPassFew(values: seq<int>, t: Test, faulty: set<nat>)
    requires forall i :: 0 <= i < |values| && Passes(t, values[i]) ==> i in faulty
    ensures CountIf(values, t) <= |faulty|
  {
    if values != [] {
      var n := |values| - 1;
      FaultyPassFew(values[..n], t, if Passes(t, values[n]) then faulty - {n} else faulty);
    }
  }

  /** More values pass a test than there are faulty providers, so an honest value passes it. */
  lemma HonestPasses(values: seq<int>, t: Test, faulty: set<nat>) returns (i: nat)
    requires CountIf(values, t) > |faulty|
    ensures i < |values| && i !in faulty && Passes(t, values[i])
  {
    if forall i :: 0 <= i < |values| && Passes(t, values[i]) ==> i in faulty {
      FaultyPassFew(values, t, faulty);
      assert false;
    }
    i :| 0 <= i < |values| && Passes(t, values[i]) && i !in faulty;
  }

  /** An accepted height is within one of an honest answer when fewer than `quorum` providers are faulty. */
  lemma AcceptedNumberIsNearHonest(values: seq<int>, quorum: int, faulty: set<nat>) returns (i: nat)
    requires |faulty| < quorum <= CountIf(values, Near(Median(values)))
    ensures i < |values| && i !in faulty && -1 <= values[i] - Median(values) <= 1
  {
    i := HonestPasses(values, Near(Median(values)), faulty);
  }

  /** With fewer than half of the answers faulty, the median lies between two honest ones. */
  lemma MedianIsBetweenHonest(values: seq<int>, faulty: set<nat>) returns (i: nat, j: nat)
    requires 2 * |faulty| < |values|
    ensures i < |values| && j < |values| && i !in faulty && j !in faulty
    ensures values[i] <= Median(values) <= values[j]
  {
    MedianRank(values);
    i := HonestPasses(values, AtMost(Median(values)), faulty);
    j := HonestPasses(values, AtLeast(Median(values)), faulty);
  }

  /** Of two answers the larger is the median, faulty or not. */
  lemma MedianOfTwo(a: int, b: int)
    ensures Median([a, b]) == if a <= b then b else a
  {
    assert [a, b][1..] == [b] && [b][1..] == [];
    assert Sort([b]) == [b];
  }

  /** Some honest answer is at most the median and some honest answer is at least it. */
  ghost predicate Between(values: seq<int>, faulty: set<nat>) {
    exists i, j :: 0 <= i < |values| && 0 <= j < |values| && i !in faulty && j !in faulty
      && values[i] <= Median(values) <= values[j]
  }

  /** However the n answers are spread and whichever f of them are faulty, the median lies between honest ones. */
  ghost predicate MedianIsSafe(n: nat, f: nat) {
    forall values: seq<int>, faulty: set<nat> :: |values| == n && |faulty| <= f ==> Between(values, faulty)
  }

  /** That holds if and only if fewer than half of the answers can be faulty. */
  lemma MedianIsSafeExactly(n: nat, f: nat)
    ensures MedianIsSafe(n, f) <==> 2 * f < n
  {
    hide Median, Between;
    if 2 * f < n {
      forall values: seq<int>, faulty: set<nat> | |values| == n && |faulty| <= f ensures Between(values, faulty) {
        BetweenHonest(values, faulty);
      }
    } else {
      var few := if f < n then f else n;
      LyingHalfMovesMedian(n, few);
      assert |TwoLevels(n, few)| == n && |Last(n, few)| <= f;
    }
  }

  lemma BetweenHonest(values: seq<int>, faulty: set<nat>)
    requires 2 * |faulty| < |values|
    ensures Between(values, faulty)
  {
    hide Median;
    var i, j := MedianIsBetweenHonest(values, faulty);
  }

  /** Zeros, and after them f ones. */
  function TwoLevels(n: nat, f: nat): (r: seq<int>)
    requires f <= n
    ensures |r| == n && forall i :: 0 <= i < n ==> r[i] == if i < n - f then 0 else 1
  {
    seq(n, i requires 0 <= i < n => if i < n - f then 0 else 1)
  }

  /** The positions of the ones. */
  function Last(n: nat, f: nat): (r: set<nat>)
    requires f <= n
    ensures |r| == f && forall i :: i in r <==> n - f <= i < n
  {
    if f == 0 then {}
    else
      var r := Last(n, f - 1);
      assert n - f !in r;
      r + {n - f}
  }

  lemma MedianOfTwoLevels(n: nat, f: nat)
    requires f <= n <= 2 * f && n > 0
    ensures Median(TwoLevels(n, f)) == 1
  {
    hide Sort, TwoLevels;
    SortOfAscending(TwoLevels(n, f));
  }

  /** Half of the answers lying high leave no honest answer at or above the median. */
  lemma LyingHalfMovesMedian(n: nat, f: nat)
    requires f <= n <= 2 * f
    ensures !Between(TwoLevels(n, f), Last(n, f))
  {
    hide Median, TwoLevels, Last;
    if n > 0 { MedianOfTwoLevels(n, f); }
  }

  // ----- Monero transactions -----

  /** A node's answer: the canonical text of the fields that must agree, its confirmation count, and the
      fields it alone vouches for (block height, pool flag, output indices, hash). */
  datatype NodeTx = NodeTx(data: string, confirmations: int, rest: string)

  /** The confirmations reported with some data, in the order of the nodes. */
  function Bucket(txs: seq<NodeTx>, data: string): seq<int> {
    if txs == [] then []
    else Bucket(txs[..|txs| - 1], data) + if txs[|txs| - 1].data == data then [txs[|txs| - 1].confirmations] else []
  }

  lemma BucketOfPrefix(txs: seq<NodeTx>, i: nat, d: string)
    requires i < |txs|
    ensures Bucket(txs[..i + 1], d) == Bucket(txs[..i], d) + if txs[i].data == d then [txs[i].confirmations] else []
  {
    assert txs[..i + 1][..i] == txs[..i];
  }

  /** Enough nodes sent this data. */
  predicate Agreed(txs: seq<NodeTx>, quorum: int, data: string) {
    |Bucket(txs, data)| >= quorum
  }

  /** Of the first n nodes, the first that sent data enough nodes sent. */
  function FirstAgreed(txs: seq<NodeTx>, quorum: int, n: nat): (r: Option<nat>)
    requires n <= |txs|
    ensures r.Some? ==> r.value < n && Agreed(txs, quorum, txs[r.value].data)
    ensures r.Some? ==> forall j :: 0 <= j < r.value ==> !Agreed(txs, quorum, txs[j].data)
    ensures r.None? ==> forall j :: 0 <= j < n ==> !Agreed(txs, quorum, txs[j].data)
  {
    if n == 0 then None
    else
      var r := FirstAgreed(txs, quorum, n - 1);
      if r.Some? then r else if Agreed(txs, quorum, txs[n - 1].data) then Some(n - 1) else None
  }

  /** What the first such node sent, with the median of the confirmations that came with the same data. */
  function AgreeingTransaction(txs: seq<NodeTx>, quorum: int): Option<NodeTx> {
    var i := FirstAgreed(txs, quorum, |txs|);
    if i.None? then None
    else
      var tx := txs[i.value];
      Some(tx.(confirmations := Median(Bucket(txs, tx.data))))
  }

  /** The keys of the map in insertion order. */
  function KeysOf(txs: seq<NodeTx>): seq<string> {
    if txs == [] then []
    else
      var keys := KeysOf(txs[..|txs| - 1]);
      var data := txs[|txs| - 1].data;
      if data in keys then keys else keys + [data]
  }

  function FirstWith(txs: seq<NodeTx>, data: string): Option<NodeTx> {
    if txs == [] then None
    else
      var r := FirstWith(txs[..|txs| - 1], data);
      if r.Some? then r else if txs[|txs| - 1].data == data then Some(txs[|txs| - 1]) else None
  }

  function FirstKey(txs: seq<NodeTx>, quorum: int, keys: seq<string>): Option<string> {
    if keys == [] then None
    else
      var r := FirstKey(txs, quorum, keys[..|keys| - 1]);
      if r.Some? then r else if Agreed(txs, quorum, keys[|keys| - 1]) then Some(keys[|keys| - 1]) else None
  }

  /** A bucket of the map: the first node of it and the confirmations collected. */
  datatype Group = Group(first: NodeTx, confirmations: seq<int>)

  ghost predicate Grouped(txs: seq<NodeTx>, groups: map<string, Group>) {
    forall d :: (d in groups <==> FirstWith(txs, d).Some?)
      && (d in groups ==> groups[d] == Group(FirstWith(txs, d).value, Bucket(txs, d)))
  }

  /** Data that `quorum` nodes returned alike, from the node that was first to return it, with the
      median of those nodes' confirmations. */
  method PickAgreeingTransaction(successes: seq<NodeTx>, quorum: int) returns (r: Option<NodeTx>)
    ensures r == AgreeingTransaction(successes, quorum)
    ensures r.None? <==> forall d :: Bucket(successes, d) != [] ==> |Bucket(successes, d)| < quorum
  {
    hide Bucket, Median, Grouped, FirstAgreed, FirstKey, FirstWith, KeysOf;
    var groups: map<string, Group> := map[];
    var order: seq<string> := [];
    NothingGrouped();
    for i := 0 to |successes|
      invariant Grouped(successes[..i], groups) && order == KeysOf(successes[..i])
      invariant forall d :: d in order <==> d in groups
    {
      var tx := successes[i];
      OneMoreNode(successes, i, groups);
      if tx.data in groups {
        var bucket := groups[tx.data];
        groups := groups[tx.data := bucket.(confirmations := bucket.confirmations + [tx.confirmations])];
      } else {
        groups := groups[tx.data := Group(tx, [tx.confirmations])];
        order := order + [tx.data];
      }
    }
    assert successes[..|successes|] == successes;
    AgreementByBuckets(successes, quorum);
    FirstKeyIsFirstNode(successes, quorum, |successes|);
    NoKeysYet(successes, quorum);
    for k := 0 to |order|
      invariant FirstKey(successes, quorum, order[..k]) == None
    {
      GroupOf(successes, groups, order[k]);
      NextKey(successes, quorum, order, k);
      var group := groups[order[k]];
      if |group.confirmations| >= quorum {
        FirstKeyStays(successes, quorum, order, k + 1);
        return Some(group.first.(confirmations := Median(group.confirmations)));
      }
    }
    assert order[..|order|] == order;
    return None;
  }

  lemma NothingGrouped()
    ensures Grouped([], map[]) && KeysOf([]) == []
  {
  }

  lemma OneMoreNode(txs: seq<NodeTx>, i: nat, groups: map<string, Group>)
    requires i < |txs| && Grouped(txs[..i], groups) && forall d :: d in KeysOf(txs[..i]) <==> d in groups
    ensures var tx := txs[i];
      if tx.data in groups then
        && KeysOf(txs[..i + 1]) == KeysOf(txs[..i])
        && Grouped(txs[..i + 1], groups[tx.data :=
             groups[tx.data].(confirmations := groups[tx.data].confirmations + [tx.confirmations])])
      else
        && KeysOf(txs[..i + 1]) == KeysOf(txs[..i]) + [tx.data]
        && Grouped(txs[..i + 1], groups[tx.data := Group(tx, [tx.confirmations])])
  {
    hide Bucket;
    assert txs[..i + 1][..i] == txs[..i];
    forall d { BucketOfPrefix(txs, i, d); }
    BucketWithout(txs[..i], txs[i].data);
  }

  lemma {:induction false} BucketWithout(txs: seq<NodeTx>, d: string)
    ensures Bucket(txs, d) == [] <==> FirstWith(txs, d).None?
    ensures FirstWith(txs, d).Some? <==> exists j :: 0 <= j < |txs| && txs[j].data == d
  {
    if txs != [] {
      var n := |txs| - 1;
      BucketWithout(txs[..n], d);
      if FirstWith(txs[..n], d).Some? {
        var j :| 0 <= j < n && txs[..n][j].data == d;
        assert txs[j].data == d;
      } else if txs[n].data != d {
        assert forall j :: 0 <= j < n ==> txs[..n][j].data != d;
        assert forall j :: 0 <= j < n ==> txs[j] == txs[..n][j];
      }
    }
  }

  lemma GroupOf(txs: seq<NodeTx>, groups: map<string, Group>, d: string)
    requires Grouped(txs, groups) && d in groups
    ensures FirstWith(txs, d).Some? && groups[d] == Group(FirstWith(txs, d).value, Bucket(txs, d))
  {
  }

  lemma NoKeysYet(txs: seq<NodeTx>, quorum: int)
    ensures FirstKey(txs, quorum, []) == None
  {
  }

  lemma NextKey(txs: seq<NodeTx>, quorum: int, keys: seq<string>, k: nat)
    requires k < |keys| && FirstKey(txs, quorum, keys[..k]).None?
    ensures FirstKey(txs, quorum, keys[..k + 1]) == if Agreed(txs, quorum, keys[k]) then Some(keys[k]) else None
  {
    assert keys[..k + 1][..k] == keys[..k];
  }

  lemma {:induction false} FirstKeyStays(txs: seq<NodeTx>, quorum: int, keys: seq<string>, k: nat)
    requires k <= |keys| && FirstKey(txs, quorum, keys[..k]).Some?
    ensures FirstKey(txs, quorum, keys) == FirstKey(txs, quorum, keys[..k])
  {
    hide Agreed;
    if k == |keys| {
      assert keys[..k] == keys;
    } else {
      assert keys[..|keys| - 1][..k] == keys[..k];
      FirstKeyStays(txs, quorum, keys[..|keys| - 1], k);
    }
  }

  /** The first key in insertion order that reaches the quorum is what the first agreed node sent, and
      that node is the first of its bucket. */
  lemma {:induction false} FirstKeyIsFirstNode(txs: seq<NodeTx>, quorum: int, n: nat)
    requires n <= |txs|
    ensures var i, key := FirstAgreed(txs, quorum, n), FirstKey(txs, quorum, KeysOf(txs[..n]));
      if i.None? then key == None
      else key == Some(txs[i.value].data) && FirstWith(txs[..n], txs[i.value].data) == Some(txs[i.value])
    ensures FirstAgreed(txs, quorum, n).None? ==> forall d :: d in KeysOf(txs[..n]) ==> !Agreed(txs, quorum, d)
  {
    hide Agreed;
    if n > 0 {
      FirstKeyIsFirstNode(txs, quorum, n - 1);
      assert txs[..n][..n - 1] == txs[..n - 1];
      var keys, data := KeysOf(txs[..n - 1]), txs[n - 1].data;
      assert (keys + [data])[..|keys|] == keys;
      if FirstAgreed(txs, quorum, n - 1).None? && Agreed(txs, quorum, data) {
        NotAmongEarlier(txs, n - 1, data, quorum);
      }
    }
  }

  lemma NotAmongEarlier(txs: seq<NodeTx>, n: nat, data: string, quorum: int)
    requires n <= |txs| && FirstAgreed(txs, quorum, n).None? && Agreed(txs, quorum, data)
    ensures FirstWith(txs[..n], data).None?
  {
    hide Agreed, FirstAgreed;
    BucketWithout(txs[..n], data);
    assert forall j :: 0 <= j < n ==> txs[..n][j] == txs[j];
  }

  lemma AgreementByBuckets(txs: seq<NodeTx>, quorum: int)
    ensures FirstAgreed(txs, quorum, |txs|).None?
       <==> forall d :: Bucket(txs, d) != [] ==> |Bucket(txs, d)| < quorum
  {
    var first := FirstAgreed(txs, quorum, |txs|);
    hide Bucket, FirstWith, FirstAgreed;
    if first.None? {
      forall d | Bucket(txs, d) != [] ensures |Bucket(txs, d)| < quorum {
        BucketWithout(txs, d);
        var j :| 0 <= j < |txs| && txs[j].data == d;
        assert !Agreed(txs, quorum, txs[j].data);
      }
    } else {
      var d := txs[first.value].data;
      BucketHolds(txs, first.value);
      assert Bucket(txs, d) != [] && |Bucket(txs, d)| >= quorum;
    }
  }

  /** The nodes whose answer has some data. */
  ghost function Senders(settled: seq<Option<NodeTx>>, data: string): set<nat> {
    Where(settled, (tx: NodeTx) => tx.data == data)
  }

  lemma {:induction false} BucketIsSenders(settled: seq<Option<NodeTx>>, data: string)
    ensures |Bucket(Fulfilled(settled), data)| == |Senders(settled, data)|
  {
    if settled != [] {
      var n := |settled| - 1;
      BucketIsSenders(settled[..n], data);
      FulfilledLast(settled);
      WhereLast(settled, (tx: NodeTx) => tx.data == data);
      hide Fulfilled, Where;
      if settled[n].Some? {
        var txs := Fulfilled(settled);
        assert txs[..|txs| - 1] == Fulfilled(settled[..n]);
      }
    }
  }

  /** Enough nodes must answer, and a quorum of them alike. The result is what the first node of an agreeing
      quorum sent, but for the confirmations. */
  method FetchTransactionQuorum(settled: seq<Option<NodeTx>>, quorum: int) returns (r: Option<NodeTx>)
    ensures r == AgreeingTransaction(Fulfilled(settled), quorum)
    ensures r.Some? ==> |Senders(settled, r.value.data)| >= quorum && FirstToAgree(settled, quorum, r.value)
    ensures r.None? <==> forall d :: |Senders(settled, d)| >= 1 ==> |Senders(settled, d)| < quorum
  {
    hide Fulfilled, AgreeingTransaction, Senders, Bucket, FirstToAgree;
    var successes := Fulfilled(settled);
    AgreedByQuorum(settled, quorum);
    if |successes| < quorum { return None; }
    r := PickAgreeingTransaction(successes, quorum);
  }

  /** The answer is that of a node whose data a quorum sent, no earlier node's data was, and the
      confirmations are the median of those sent with the data. */
  ghost predicate FirstToAgree(settled: seq<Option<NodeTx>>, quorum: int, r: NodeTx) {
    exists n :: 0 <= n < |settled| && settled[n].Some?
      && r == NodeTx(settled[n].value.data, Median(Bucket(Fulfilled(settled), r.data)), settled[n].value.rest)
      && (forall m :: 0 <= m < n && settled[m].Some? ==> |Senders(settled, settled[m].value.data)| < quorum)
  }

  lemma AgreedByQuorum(settled: seq<Option<NodeTx>>, quorum: int)
    ensures var r := AgreeingTransaction(Fulfilled(settled), quorum);
      && (r.Some? ==> |Senders(settled, r.value.data)| >= quorum && |Fulfilled(settled)| >= quorum
                      && FirstToAgree(settled, quorum, r.value))
      && (r.None? <==> forall d :: |Senders(settled, d)| >= 1 ==> |Senders(settled, d)| < quorum)
  {
    hide Fulfilled, Bucket, Senders, Median;
    var txs := Fulfilled(settled);
    forall d ensures |Bucket(txs, d)| == |Senders(settled, d)| && |Bucket(txs, d)| <= |txs| {
      BucketIsSenders(settled, d);
      BucketIsSmall(txs, d);
    }
    var first := FirstAgreed(txs, quorum, |txs|);
    if first.Some? {
      var d := txs[first.value].data;
      BucketHolds(txs, first.value);
      assert |Senders(settled, d)| >= 1 && |Senders(settled, d)| >= quorum;
      OneForOne(settled);
      var places := Places(settled);
      var n := places[first.value];
      forall m | 0 <= m < n && settled[m].Some? ensures |Senders(settled, settled[m].value.data)| < quorum {
        var j :| 0 <= j < |places| && places[j] == m;
        assert j < first.value && txs[j] == settled[m].value && !Agreed(txs, quorum, txs[j].data);
      }
    } else {
      forall d | |Senders(settled, d)| >= 1 ensures |Senders(settled, d)| < quorum {
        BucketWithout(txs, d);
        var j :| 0 <= j < |txs| && txs[j].data == d;
        assert !Agreed(txs, quorum, txs[j].data);
      }
    }
  }

  lemma BucketHolds(txs: seq<NodeTx>, i: nat)
    requires i < |txs|
    ensures Bucket(txs, txs[i].data) != []
  {
    BucketWithout(txs, txs[i].data);
  }

  lemma {:induction false} BucketIsSmall(txs: seq<NodeTx>, d: string)
    ensures |Bucket(txs, d)| <= |txs|
  {
    if txs != [] { BucketIsSmall(txs[..|txs| - 1], d); }
  }

  /** With fewer faulty nodes than the quorum, an honest one returned the agreed data. */
  lemma AgreedTransactionIsHonest(settled: seq<Option<NodeTx>>, data: string, quorum: int, faulty: set<nat>)
    returns (i: nat)
    requires |faulty| < quorum <= |Senders(settled, data)|
    ensures i < |settled| && i !in faulty && settled[i].Some? && settled[i].value.data == data
  {
    i := SomeHonest(Senders(settled, data), faulty);
  }

  /** When the faulty nodes report everything in a bucket that passes a test, it holds few such reports. */
  lemma {:induction false} FaultyBucketIsSmall(txs: seq<NodeTx>, data: string, t: Test, faulty: set<nat>)
    requires forall i :: 0 <= i < |txs| && txs[i].data == data && Passes(t, txs[i].confirmations) ==> i in faulty
    ensures CountIf(Bucket(txs, data), t) <= |faulty|
  {
    hide CountIf;
    if txs == [] {
      NothingCounted(t);
    } else {
      var n := |txs| - 1;
      var reports := txs[n].data == data;
      var others := if reports && Passes(t, txs[n].confirmations) then faulty - {n} else faulty;
      FaultyBucketIsSmall(txs[..n], data, t, others);
      if reports {
        CountIfAppend(Bucket(txs[..n], data), [txs[n].confirmations], t);
        CountIfOne(txs[n].confirmations, t);
      } else {
        assert Bucket(txs, data) == Bucket(txs[..n], data) + [];
        assert Bucket(txs[..n], data) + [] == Bucket(txs[..n], data);
      }
    }
  }

  lemma NothingCounted(t: Test)
    ensures CountIf([], t) == 0
  {
  }

  /** An honest node that sent the agreed data reported at least the agreed confirmations. */
  ghost predicate ConfirmedHonestly(settled: seq<Option<NodeTx>>, agreed: NodeTx, faulty: set<nat>) {
    exists i :: 0 <= i < |settled| && i !in faulty && settled[i].Some? && settled[i].value.data == agreed.data
                && settled[i].value.confirmations >= agreed.confirmations
  }

  /** Whatever the nodes answer and whichever f of them are faulty, agreed confirmations were reached. */
  ghost predicate ConfirmationsAreSafe(quorum: int, f: nat) {
    forall settled: seq<Option<NodeTx>>, faulty: set<nat> ::
      |faulty| <= f && AgreeingTransaction(Fulfilled(settled), quorum).Some? ==>
        ConfirmedHonestly(settled, AgreeingTransaction(Fulfilled(settled), quorum).value, faulty)
  }

  /** How many nodes an agreement takes. */
  function Needed(quorum: int): nat {
    if quorum >= 1 then quorum else 1
  }

  /** That holds if and only if the faulty nodes are fewer than half of those an agreement takes. */
  lemma ConfirmationsAreSafeExactly(quorum: int, f: nat)
    ensures ConfirmationsAreSafe(quorum, f) <==> 2 * f < Needed(quorum)
  {
    hide AgreeingTransaction, ConfirmedHonestly, Fulfilled;
    if 2 * f < Needed(quorum) {
      forall settled: seq<Option<NodeTx>>, faulty: set<nat>
        | |faulty| <= f && AgreeingTransaction(Fulfilled(settled), quorum).Some?
        ensures ConfirmedHonestly(settled, AgreeingTransaction(Fulfilled(settled), quorum).value, faulty)
      {
        FaultyNodesCannotRaise(settled, quorum, faulty);
      }
    } else {
      var n := Needed(quorum);
      var few := if f < n then f else n;
      LyingHalfConfirms(quorum, n, few);
      AllAreFulfilled(SameData(n, few));
    }
  }

  lemma FaultyNodesCannotRaise(settled: seq<Option<NodeTx>>, quorum: int, faulty: set<nat>)
    requires 2 * |faulty| < Needed(quorum) && AgreeingTransaction(Fulfilled(settled), quorum).Some?
    ensures ConfirmedHonestly(settled, AgreeingTransaction(Fulfilled(settled), quorum).value, faulty)
  {
    hide AgreeingTransaction, Fulfilled;
    var among := FaultyAnswers(settled, faulty);
    OneForOne(settled);
    var i := MinorityCannotRaise(Fulfilled(settled), quorum, among);
    var n := Places(settled)[i];
    assert n !in faulty && settled[n] == Some(Fulfilled(settled)[i]);
  }

  lemma MinorityCannotRaise(txs: seq<NodeTx>, quorum: int, faulty: set<nat>) returns (i: nat)
    requires 2 * |faulty| < Needed(quorum) && AgreeingTransaction(txs, quorum).Some?
    ensures i < |txs| && i !in faulty && txs[i].data == AgreeingTransaction(txs, quorum).value.data
    ensures txs[i].confirmations >= AgreeingTransaction(txs, quorum).value.confirmations
  {
    hide Median, Bucket, CountIf;
    var r := AgreeingTransaction(txs, quorum).value;
    var b := Bucket(txs, r.data);
    BucketWithout(txs, r.data);
    MedianRank(b);
    var t := AtLeast(r.confirmations);
    if forall i :: 0 <= i < |txs| && txs[i].data == r.data && Passes(t, txs[i].confirmations) ==> i in faulty {
      FaultyBucketIsSmall(txs, r.data, t, faulty);
      assert false;
    }
    i :| 0 <= i < |txs| && txs[i].data == r.data && Passes(t, txs[i].confirmations) && i !in faulty;
  }

  /** One answer for each of `n` nodes, all with the same data, the last f claiming one confirmation. */
  function SameData(n: nat, f: nat): (r: seq<NodeTx>)
    requires f <= n
    ensures |r| == n && forall i :: 0 <= i < n ==> r[i] == NodeTx("", TwoLevels(n, f)[i], "")
  {
    seq(n, i requires 0 <= i < n => NodeTx("", TwoLevels(n, f)[i], ""))
  }

  lemma {:induction false} BucketOfSame(txs: seq<NodeTx>, data: string, values: seq<int>)
    requires |txs| == |values|
    requires forall i :: 0 <= i < |txs| ==> txs[i].data == data && txs[i].confirmations == values[i]
    ensures Bucket(txs, data) == values
  {
    if txs != [] {
      var n := |txs| - 1;
      BucketOfSame(txs[..n], data, values[..n]);
      assert values == values[..n] + [values[n]];
    }
  }

  lemma LyingHalfConfirms(quorum: int, n: nat, f: nat)
    requires f <= n <= 2 * f && n == Needed(quorum)
    ensures var txs := SameData(n, f);
      && AgreeingTransaction(txs, quorum).Some?
      && !ConfirmedHonestly(AllAnswered(txs), AgreeingTransaction(txs, quorum).value, Last(n, f))
  {
    hide Median, Bucket, TwoLevels, Last, SameData;
    var txs := SameData(n, f);
    BucketOfSame(txs, "", TwoLevels(n, f));
    MedianOfTwoLevels(n, f);
    FirstNodeAgreed(txs, quorum);
  }

  /** When enough nodes sent what the first node sent, that is what is agreed. */
  lemma FirstNodeAgreed(txs: seq<NodeTx>, quorum: int)
    requires txs != [] && Agreed(txs, quorum, txs[0].data)
    ensures AgreeingTransaction(txs, quorum) == Some(txs[0].(confirmations := Median(Bucket(txs, txs[0].data))))
  {
    hide Agreed, FirstAgreed;
    assert FirstAgreed(txs, quorum, |txs|) == Some(0);
  }

  /** With the default quorum of two, one faulty node beside an honest one sets the confirmations: ten
      are agreed on where the honest node saw none. */
  lemma OneLiarConfirms()
    ensures var txs := [NodeTx("tx", 0, ""), NodeTx("tx", 10, "")];
      && Fulfilled([Some(txs[0]), Some(txs[1])]) == txs
      && AgreeingTransaction(txs, 2) == Some(NodeTx("tx", 10, ""))
      && !ConfirmedHonestly([Some(txs[0]), Some(txs[1])], NodeTx("tx", 10, ""), {1})
  {
    hide Bucket, Median, AgreeingTransaction;
    var txs := [NodeTx("tx", 0, ""), NodeTx("tx", 10, "")];
    AllAreFulfilled(txs);
    assert AllAnswered(txs) == [Some(txs[0]), Some(txs[1])];
    BucketOfSame(txs, "tx", [0, 10]);
    MedianOfTwo(0, 10);
    FirstNodeAgreed(txs, 2);
  }

  // ----- quotes -----

  /** The engine's figure is inside the slippage band around the median quote. BigInt division
      truncates toward zero. */
  predicate QuoteAccepted(quotes: seq<int>, engine: int, slippageBps: int) {
    && quotes != []
    && var mid := Median(quotes);
    && var tolerance := Truncate(mid * slippageBps, 10_000);
    && mid - tolerance <= engine <= mid + tolerance
  }

  function Truncate(a: int, b: int): int
    requires b > 0
  {
    if a >= 0 then a / b else -((-a) / b)
  }

  /** An accepted figure is within the slippage of a range spanned by two honest quotes when fewer
      than half of the sources are faulty. */
  lemma AcceptedQuoteIsNearHonest(quotes: seq<int>, engine: int, slippageBps: int, faulty: set<nat>)
    returns (i: nat, j: nat)
    requires QuoteAccepted(quotes, engine, slippageBps) && 2 * |faulty| < |quotes|
    requires slippageBps >= 0 && Median(quotes) >= 0
    ensures i < |quotes| && j < |quotes| && i !in faulty && j !in faulty
    ensures 10_000 * (quotes[i] - engine) <= Median(quotes) * slippageBps
    ensures 10_000 * (engine - quotes[j]) <= Median(quotes) * slippageBps
  {
    i, j := MedianIsBetweenHonest(quotes, faulty);
    hide Median;
    var band := Median(quotes) * slippageBps;
    assert band >= 0 by { ProductIsNatural(Median(quotes), slippageBps); }
    TruncatedBand(band);
  }

  lemma ProductIsNatural(a: int, b: int)
    requires a >= 0 && b >= 0
    ensures a * b >= 0
  {
  }

  lemma TruncatedBand(band: int)
    requires band >= 0
    ensures 10_000 * Truncate(band, 10_000) <= band
  {
  }
}
