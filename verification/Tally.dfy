/** Map-counting loops: how many lists report a key, keys kept in the order first seen. */
module Tally {
  import opened Wrappers
  import opened Sorting

  /** A JavaScript Map from a key to the first item seen with it and a count; iteration follows `order`. */
  datatype Tally<T, K> = Tally(order: seq<K>, first: map<K, T>, count: map<K, nat>)

  function Empty<T, K>(): Tally<T, K> {
    Tally([], map[], map[])
  }

  function Bump<T, K>(t: Tally<T, K>, k: K, item: T): Tally<T, K> {
    if k in t.count then t.(count := t.count[k := t.count[k] + 1])
    else Tally(t.order + [k], t.first[k := item], t.count[k := 1])
  }

  /** One list: each key counts once, whatever its repetitions. */
  function AddList<T, K>(t: Tally<T, K>, list: seq<T>, key: T -> K, seen: set<K>): Tally<T, K>
    decreases |list|
  {
    if list == [] then t
    else if key(list[0]) in seen then AddList(t, list[1..], key, seen)
    else AddList(Bump(t, key(list[0]), list[0]), list[1..], key, seen + {key(list[0])})
  }

  function TallyOf<T, K>(lists: seq<seq<T>>, key: T -> K): Tally<T, K> {
    if lists == [] then Empty()
    else AddList(TallyOf(lists[..|lists| - 1], key), lists[|lists| - 1], key, {})
  }

  ghost predicate HasKey<T, K>(list: seq<T>, key: T -> K, k: K) {
    exists i :: 0 <= i < |list| && key(list[i]) == k
  }

  lemma AddSingle<T, K>(t: Tally<T, K>, item: T, key: T -> K)
    ensures AddList(t, [item], key, {}) == Bump(t, key(item), item)
  {
    assert [item][1..] == [];
  }

  /** How many lists report k. */
  ghost function Reports<T, K>(lists: seq<seq<T>>, key: T -> K, k: K): nat {
    if lists == [] then 0
    else Reports(lists[..|lists| - 1], key, k) + if HasKey(lists[|lists| - 1], key, k) then 1 else 0
  }

  function CountOf<T, K>(t: Tally<T, K>, k: K): nat {
    if k in t.count then t.count[k] else 0
  }

  /** The keys in iteration order are the counted ones, once each, each with an item of that key. */
  ghost predicate Sound<T(!new), K(!new)>(t: Tally<T, K>, key: T -> K) {
    && Distinct(t.order)
    && (forall k :: k in t.order <==> k in t.count)
    && (forall k :: k in t.count <==> k in t.first)
    && (forall k :: k in t.count ==> t.count[k] > 0)
    && (forall k :: k in t.first ==> key(t.first[k]) == k)
  }

  lemma {:induction false} AddListCounts<T(!new), K(!new)>(t: Tally<T, K>, list: seq<T>, key: T -> K, seen: set<K>)
    requires Sound(t, key)
    ensures var t' := AddList(t, list, key, seen);
            && Sound(t', key)
            && forall k :: CountOf(t', k) == CountOf(t, k) + if k !in seen && HasKey(list, key, k) then 1 else 0
    decreases |list|
  {
    if list != [] {
      var k0 := key(list[0]);
      var t1 := if k0 in seen then t else Bump(t, k0, list[0]);
      var seen1 := if k0 in seen then seen else seen + {k0};
      AddListCounts(t1, list[1..], key, seen1);
      forall k ensures HasKey(list, key, k) <==> k == k0 || HasKey(list[1..], key, k) {
        HasKeySplits(list, key, k);
      }
    }
  }

  lemma HasKeySplits<T, K>(list: seq<T>, key: T -> K, k: K)
    requires list != []
    ensures HasKey(list, key, k) <==> key(list[0]) == k || HasKey(list[1..], key, k)
  {
    if HasKey(list[1..], key, k) {
      var i :| 0 <= i < |list[1..]| && key(list[1..][i]) == k;
      assert key(list[i + 1]) == k;
    }
    if HasKey(list, key, k) {
      var i :| 0 <= i < |list| && key(list[i]) == k;
      assert i > 0 ==> key(list[1..][i - 1]) == k;
    }
  }

  /** The loops count, for each key, the lists that report it. */
  lemma {:induction false} TallyCountsReports<T(!new), K(!new)>(lists: seq<seq<T>>, key: T -> K)
    ensures Sound(TallyOf(lists, key), key)
    ensures forall k :: CountOf(TallyOf(lists, key), k) == Reports(lists, key, k)
  {
    if lists != [] {
      var n := |lists| - 1;
      TallyCountsReports(lists[..n], key);
      AddListCounts(TallyOf(lists[..n], key), lists[n], key, {});
    }
  }

  /** The entries that reach the quorum and pass the filter, in iteration order. */
  function Accepted<T, K>(t: Tally<T, K>, order: seq<K>, quorum: int, keep: T -> bool): seq<T>
    requires forall k :: k in order ==> k in t.first && k in t.count
  {
    if order == [] then []
    else
      var k := order[|order| - 1];
      Accepted(t, order[..|order| - 1], quorum, keep)
      + if t.count[k] >= quorum && keep(t.first[k]) then [t.first[k]] else []
  }

  /** The merge loops of the UTXO, history and vault readers. */
  method MergeByKey<T(!new), K(==, !new)>(lists: seq<seq<T>>, key: T -> K, quorum: int, keep: T -> bool)
    returns (accepted: seq<T>)
    ensures Sound(TallyOf(lists, key), key)
    ensures accepted == Accepted(TallyOf(lists, key), TallyOf(lists, key).order, quorum, keep)
  {
    var t: Tally<T, K> := Empty();
    for i := 0 to |lists|
      invariant t == TallyOf(lists[..i], key)
    {
      var list := lists[i];
      var seen: set<K> := {};
      ghost var before := t;
      for j := 0 to |list|
        invariant AddList(before, list, key, {}) == AddList(t, list[j..], key, seen)
      {
        assert list[j..][1..] == list[j + 1..];
        var k := key(list[j]);
        if k in seen { continue; }
        seen := seen + {k};
        t := Bump(t, k, list[j]);
      }
      assert lists[..i + 1][..i] == lists[..i];
    }
    assert lists[..|lists|] == lists;
    TallyCountsReports(lists, key);
    accepted := [];
    for i := 0 to |t.order|
      invariant accepted == Accepted(t, t.order[..i], quorum, keep)
    {
      var k := t.order[i];
      assert t.order[..i + 1][..i] == t.order[..i];
      if t.count[k] >= quorum && keep(t.first[k]) { accepted := accepted + [t.first[k]]; }
    }
    assert t.order[..|t.order|] == t.order;
  }

  lemma {:induction false} AcceptedExactly<T(!new), K(!new)>(t: Tally<T, K>, order: seq<K>, key: T -> K, quorum: int,
                                                             keep: T -> bool)
    requires Sound(t, key) && Distinct(order) && forall k :: k in order ==> k in t.count
    ensures var a := Accepted(t, order, quorum, keep);
            && (forall i :: 0 <= i < |a| ==> key(a[i]) in order && t.count[key(a[i])] >= quorum && keep(a[i])
                                             && a[i] == t.first[key(a[i])])
            && (forall i, j :: 0 <= i < j < |a| ==> key(a[i]) != key(a[j]))
            && (forall k :: k in order && t.count[k] >= quorum && keep(t.first[k]) ==> t.first[k] in a)
  {
    if order != [] {
      var n := |order| - 1;
      AcceptedExactly(t, order[..n], key, quorum, keep);
      assert forall k :: k in order[..n] ==> k != order[n];
      assert order == order[..n] + [order[n]];
    }
  }

  /** What a merge returns: one item for each key that some list reports, that reaches the quorum, and
      whose first-seen item passes the filter; each key once. */
  lemma MergeIsTheQuorumSet<T(!new), K(!new)>(lists: seq<seq<T>>, key: T -> K, quorum: int, keep: T -> bool)
    ensures Sound(TallyOf(lists, key), key)
    ensures var t := TallyOf(lists, key);
            var a := Accepted(t, t.order, quorum, keep);
            && (forall k :: Reports(lists, key, k) >= 1 <==> k in t.first)
            && (forall k :: HasKey(a, key, k) <==>
                  Reports(lists, key, k) >= 1 && Reports(lists, key, k) >= quorum && keep(t.first[k]))
            && (forall i, j :: 0 <= i < j < |a| ==> key(a[i]) != key(a[j]))
  {
    TallyCountsReports(lists, key);
    var t := TallyOf(lists, key);
    AcceptedExactly(t, t.order, key, quorum, keep);
    var a := Accepted(t, t.order, quorum, keep);
    forall k
      ensures Reports(lists, key, k) >= 1 <==> k in t.first
      ensures HasKey(a, key, k) <==> Reports(lists, key, k) >= 1 && Reports(lists, key, k) >= quorum && keep(t.first[k])
    {
      assert CountOf(t, k) == Reports(lists, key, k);
      if k in t.first && t.count[k] >= quorum && keep(t.first[k]) {
        var i :| 0 <= i < |a| && a[i] == t.first[k];
        assert key(a[i]) == k;
      }
    }
  }

  /** With every reporter of a key among the faulty, the reports do not outnumber the faulty. */
  lemma {:induction false} FaultyReportsAreFew<T, K>(lists: seq<seq<T>>, key: T -> K, k: K, faulty: set<nat>)
    requires forall i :: 0 <= i < |lists| && HasKey(lists[i], key, k) ==> i in faulty
    ensures Reports(lists, key, k) <= |faulty|
  {
    if lists != [] {
      var n := |lists| - 1;
      var rest := if HasKey(lists[n], key, k) then faulty - {n} else faulty;
      forall i | 0 <= i < n && HasKey(lists[..n][i], key, k) ensures i in rest {
        assert lists[..n][i] == lists[i];
      }
      FaultyReportsAreFew(lists[..n], key, k, rest);
    }
  }

  /** With fewer faulty lists than the quorum, whatever reaches it was reported by an honest one. */
  lemma HonestReporter<T, K>(lists: seq<seq<T>>, key: T -> K, k: K, quorum: int, faulty: set<nat>) returns (i: nat)
    requires |faulty| < quorum <= Reports(lists, key, k)
    ensures i < |lists| && i !in faulty && HasKey(lists[i], key, k)
  {
    if forall i :: 0 <= i < |lists| && HasKey(lists[i], key, k) ==> i in faulty {
      FaultyReportsAreFew(lists, key, k, faulty);
      assert false;
    }
    i :| 0 <= i < |lists| && HasKey(lists[i], key, k) && i !in faulty;
  }

  lemma {:induction false} ReportsAppend<T, K>(a: seq<seq<T>>, b: seq<seq<T>>, key: T -> K, k: K)
    ensures Reports(a + b, key, k) == Reports(a, key, k) + Reports(b, key, k)
  {
    if b == [] {
      assert a + b == a;
    } else {
      assert (a + b)[..|a + b| - 1] == a + b[..|b| - 1];
      ReportsAppend(a, b[..|b| - 1], key, k);
    }
  }

  lemma RemoveFromBoth<T>(a: seq<T>, b: seq<T>, j: nat)
    requires a != [] && multiset(a) == multiset(b) && j < |b| && b[j] == a[|a| - 1]
    ensures multiset(a[..|a| - 1]) == multiset(b[..j] + b[j + 1..])
  {
    var x := b[j];
    assert a == a[..|a| - 1] + [x];
    assert b == b[..j] + [x] + b[j + 1..];
    assert multiset(a) == multiset(a[..|a| - 1]) + multiset{x};
    assert multiset(b) == multiset(b[..j]) + multiset{x} + multiset(b[j + 1..]);
    assert multiset(b[..j] + b[j + 1..]) == multiset(b[..j]) + multiset(b[j + 1..]);
    assert multiset(a[..|a| - 1]) == multiset(a) - multiset{x};
  }

  lemma ReportsWithout<T, K>(lists: seq<seq<T>>, key: T -> K, k: K, j: nat)
    requires j < |lists|
    ensures Reports(lists, key, k)
         == Reports(lists[..j] + lists[j + 1..], key, k) + if HasKey(lists[j], key, k) then 1 else 0
  {
    hide HasKey;
    var upTo, before, after := lists[..j + 1], lists[..j], lists[j + 1..];
    assert Reports(upTo, key, k) == Reports(before, key, k) + if HasKey(lists[j], key, k) then 1 else 0 by {
      assert upTo[..j] == before;
    }
    hide Reports;
    assert lists == upTo + after;
    ReportsAppend(upTo, after, key, k);
    ReportsAppend(before, after, key, k);
  }

  /** Providers may answer in any order: the reports of a key do not change. */
  lemma {:induction false} ReportsIgnoreOrder<T, K>(a: seq<seq<T>>, b: seq<seq<T>>, key: T -> K, k: K)
    requires multiset(a) == multiset(b)
    ensures Reports(a, key, k) == Reports(b, key, k)
    decreases |a|
  {
    hide HasKey;
    if a == [] {
      assert |multiset(b)| == 0;
    } else {
      assert a[|a| - 1] in multiset(a) && a[|a| - 1] in b;
      var j :| 0 <= j < |b| && b[j] == a[|a| - 1];
      RemoveFromBoth(a, b, j);
      ReportsIgnoreOrder(a[..|a| - 1], b[..j] + b[j + 1..], key, k);
      ReportsWithout(b, key, k, j);
    }
  }

  // ----- the item kept of a key -----

  /** The first item of a list with the given key. */
  ghost function FirstIn<T(!new), K(!new)>(list: seq<T>, key: T -> K, k: K): (r: Option<T>)
    ensures r.Some? <==> HasKey(list, key, k)
    ensures r.Some? ==>
      exists j :: 0 <= j < |list| && list[j] == r.value && key(r.value) == k
                  && forall m :: 0 <= m < j ==> key(list[m]) != k
  {
    if list == [] then None
    else if key(list[0]) == k then
      assert HasKey(list, key, k);
      Some(list[0])
    else
      HasKeySplits(list, key, k);
      var r := FirstIn(list[1..], key, k);
      assert r.Some? ==>
        exists j :: (0 <= j < |list| && list[j] == r.value && key(r.value) == k
                     && forall m :: 0 <= m < j ==> key(list[m]) != k) by {
        if r.Some? {
          var j :| 0 <= j < |list[1..]| && list[1..][j] == r.value && key(r.value) == k
                   && forall m :: 0 <= m < j ==> key(list[1..][m]) != k;
          assert list[j + 1] == r.value;
          forall m | 0 <= m < j + 1 ensures key(list[m]) != k {
            assert m > 0 ==> list[m] == list[1..][m - 1];
          }
        }
      }
      r
  }

  lemma {:induction false} AddListKeepsFirst<T(!new), K(!new)>(t: Tally<T, K>, list: seq<T>, key: T -> K,
                                                               seen: set<K>, k: K)
    requires t.first.Keys == t.count.Keys && seen <= t.count.Keys
    ensures var r := AddList(t, list, key, seen);
      && r.first.Keys == r.count.Keys
      && (k in t.first ==> k in r.first && r.first[k] == t.first[k])
      && (k !in t.first ==> (k in r.first <==> FirstIn(list, key, k).Some?))
      && (k !in t.first && k in r.first ==> FirstIn(list, key, k) == Some(r.first[k]))
    decreases |list|
  {
    if list != [] {
      var k0 := key(list[0]);
      if k0 in seen {
        AddListKeepsFirst(t, list[1..], key, seen, k);
      } else {
        AddListKeepsFirst(Bump(t, k0, list[0]), list[1..], key, seen + {k0}, k);
      }
    }
  }

  /** The item kept: the first with the key in the first list that has one. */
  ghost function Deciding<T(!new), K(!new)>(lists: seq<seq<T>>, key: T -> K, k: K): Option<T> {
    if lists == [] then None
    else
      var n := |lists| - 1;
      if Deciding(lists[..n], key, k).Some? then Deciding(lists[..n], key, k) else FirstIn(lists[n], key, k)
  }

  lemma {:induction false} DecidingIsFirst<T(!new), K(!new)>(lists: seq<seq<T>>, key: T -> K, k: K)
    ensures var t := TallyOf(lists, key);
      && t.first.Keys == t.count.Keys
      && (k in t.first <==> Deciding(lists, key, k).Some?)
      && (k in t.first ==> Deciding(lists, key, k) == Some(t.first[k]))
  {
    if lists != [] {
      var n := |lists| - 1;
      DecidingIsFirst(lists[..n], key, k);
      AddListKeepsFirst(TallyOf(lists[..n], key), lists[n], key, {}, k);
    }
  }

  /** Where the item kept stands. */
  lemma {:induction false} DecidingStands<T(!new), K(!new)>(lists: seq<seq<T>>, key: T -> K, k: K)
    returns (i: nat, j: nat)
    requires Deciding(lists, key, k).Some?
    ensures i < |lists| && j < |lists[i]| && Deciding(lists, key, k) == Some(lists[i][j]) && key(lists[i][j]) == k
    ensures FirstIn(lists[i], key, k) == Deciding(lists, key, k)
    ensures forall n :: 0 <= n < i ==> !HasKey(lists[n], key, k)
    ensures forall m :: 0 <= m < j ==> key(lists[i][m]) != k
  {
    hide FirstIn, HasKey;
    var n := |lists| - 1;
    if Deciding(lists[..n], key, k).Some? {
      i, j := DecidingStands(lists[..n], key, k);
    } else {
      i := n;
      var item := FirstIn(lists[n], key, k).value;
      j :| 0 <= j < |lists[n]| && lists[n][j] == item && key(item) == k
           && forall m :: 0 <= m < j ==> key(lists[n][m]) != k;
      forall m | 0 <= m < n ensures !HasKey(lists[m], key, k) {
        UndecidedHasNone(lists[..n], key, k, m);
        assert lists[..n][m] == lists[m];
      }
    }
  }

  lemma {:induction false} UndecidedHasNone<T(!new), K(!new)>(lists: seq<seq<T>>, key: T -> K, k: K, m: nat)
    requires Deciding(lists, key, k).None? && m < |lists|
    ensures !HasKey(lists[m], key, k)
  {
    var n := |lists| - 1;
    if m < n { UndecidedHasNone(lists[..n], key, k, m); }
  }
}
