/** Settled promises: what is kept of the answers of several providers, and which provider gave what. */
module Settled {
  import opened Wrappers
  import opened Tally

  /** The values, in order; a rejected promise is None. */
  function Fulfilled<T>(settled: seq<Option<T>>): seq<T> {
    if settled == [] then []
    else (if settled[0].Some? then [settled[0].value] else []) + Fulfilled(settled[1..])
  }

  /** The positions of the providers that answered. */
  function Places<T>(settled: seq<Option<T>>): (r: seq<nat>)
    ensures forall i :: 0 <= i < |r| ==> r[i] < |settled| && settled[r[i]].Some?
    ensures forall i, j :: 0 <= i < j < |r| ==> r[i] < r[j]
    ensures forall n :: 0 <= n < |settled| && settled[n].Some? ==> n in r
  {
    if settled == [] then []
    else
      var n := |settled| - 1;
      Places(settled[..n]) + if settled[n].Some? then [n] else []
  }

  lemma {:induction false} FulfilledLast<T>(settled: seq<Option<T>>)
    requires settled != []
    ensures var n := |settled| - 1;
      var before := Fulfilled(settled[..n]);
      Fulfilled(settled) == if settled[n].Some? then before + [settled[n].value] else before
  {
    var n := |settled| - 1;
    if n > 0 {
      FulfilledLast(settled[1..]);
      assert settled[1..][..n - 1] == settled[..n][1..];
    } else {
      assert settled[1..] == [] && settled[..n] == [];
    }
  }

  lemma PlacesLast<T>(settled: seq<Option<T>>)
    requires settled != []
    ensures var n := |settled| - 1;
      Places(settled) == Places(settled[..n]) + if settled[n].Some? then [n] else []
  {
  }

  /** Every provider that answered gives exactly one value, in the order of the providers. */
  lemma {:induction false} OneForOne<T>(settled: seq<Option<T>>)
    ensures |Fulfilled(settled)| == |Places(settled)|
    ensures forall i :: 0 <= i < |Places(settled)| ==> settled[Places(settled)[i]] == Some(Fulfilled(settled)[i])
  {
    if settled != [] {
      var n := |settled| - 1;
      var init := settled[..n];
      OneForOne(init);
      FulfilledLast(settled);
      PlacesLast(settled);
      var before, places, values := Places(init), Places(settled), Fulfilled(settled);
      forall i | 0 <= i < |before| ensures settled[before[i]] == Some(Fulfilled(init)[i]) {
        assert init[before[i]] == settled[before[i]];
      }
      hide Fulfilled, Places;
      forall i | 0 <= i < |places| ensures settled[places[i]] == Some(values[i]) {
        if i < |before| {
          assert places[i] == before[i] && values[i] == Fulfilled(init)[i];
        }
      }
    }
  }

  /** The providers whose answer passes a test. */
  ghost function Where<T(!new)>(settled: seq<Option<T>>, p: T -> bool): set<nat> {
    set i: nat | i < |settled| && settled[i].Some? && p(settled[i].value)
  }

  lemma WhereLast<T(!new)>(settled: seq<Option<T>>, p: T -> bool)
    requires settled != []
    ensures var n := |settled| - 1;
      |Where(settled, p)| == |Where(settled[..n], p)| + if settled[n].Some? && p(settled[n].value) then 1 else 0
  {
    var n := |settled| - 1;
    var before := Where(settled[..n], p);
    assert Where(settled, p) == before + if settled[n].Some? && p(settled[n].value) then {n} else {};
    assert n !in before;
  }

  lemma {:induction false} AnswersAre<T(!new)>(settled: seq<Option<T>>)
    ensures |Fulfilled(settled)| == |Where(settled, _ => true)|
  {
    if settled != [] {
      AnswersAre(settled[..|settled| - 1]);
      FulfilledLast(settled);
      WhereLast(settled, _ => true);
    }
  }

  /** The providers whose list has an item with key k. */
  ghost function Reporting<T(!new), K(!new)>(settled: seq<Option<seq<T>>>, key: T -> K, k: K): set<nat> {
    set i: nat | i < |settled| && settled[i].Some? && HasKey(settled[i].value, key, k)
  }

  lemma ReportingLast<T(!new), K(!new)>(settled: seq<Option<seq<T>>>, key: T -> K, k: K)
    requires settled != []
    ensures var n := |settled| - 1;
      |Reporting(settled, key, k)|
        == |Reporting(settled[..n], key, k)| + if settled[n].Some? && HasKey(settled[n].value, key, k) then 1 else 0
  {
    hide HasKey;
    var n := |settled| - 1;
    var before := Reporting(settled[..n], key, k);
    var last := settled[n].Some? && HasKey(settled[n].value, key, k);
    assert Reporting(settled, key, k) == before + (if last then {n} else {}) && n !in before;
  }

  lemma OneMoreReport<T, K>(lists: seq<seq<T>>, list: seq<T>, key: T -> K, k: K)
    ensures Reports(lists + [list], key, k) == Reports(lists, key, k) + if HasKey(list, key, k) then 1 else 0
  {
    hide HasKey;
    assert (lists + [list])[..|lists|] == lists;
  }

  /** The reports of a key are as many as the providers that report it. */
  lemma {:induction false} ReportsAreProviders<T(!new), K(!new)>(settled: seq<Option<seq<T>>>, key: T -> K, k: K)
    ensures Reports(Fulfilled(settled), key, k) == |Reporting(settled, key, k)|
  {
    hide HasKey;
    if settled != [] {
      var n := |settled| - 1;
      ReportsAreProviders(settled[..n], key, k);
      FulfilledLast(settled);
      ReportingLast(settled, key, k);
      hide Fulfilled, Reporting, Reports;
      if settled[n].Some? {
        OneMoreReport(Fulfilled(settled[..n]), settled[n].value, key, k);
      }
    }
  }

  /** The item is the first with its key in the first list that has one. */
  ghost predicate FirstReported<T(!new), K(!new)>(settled: seq<Option<seq<T>>>, key: T -> K, item: T) {
    exists i, j :: 0 <= i < |settled| && settled[i].Some? && 0 <= j < |settled[i].value| && settled[i].value[j] == item
      && (forall n :: 0 <= n < i && settled[n].Some? ==> !HasKey(settled[n].value, key, key(item)))
      && (forall m :: 0 <= m < j ==> key(settled[i].value[m]) != key(item))
  }

  lemma DecidingIsFirstReported<T(!new), K(!new)>(settled: seq<Option<seq<T>>>, key: T -> K, k: K)
    requires Deciding(Fulfilled(settled), key, k).Some?
    ensures FirstReported(settled, key, Deciding(Fulfilled(settled), key, k).value)
    ensures key(Deciding(Fulfilled(settled), key, k).value) == k
  {
    hide HasKey, Fulfilled, Deciding;
    var lists, places := Fulfilled(settled), Places(settled);
    OneForOne(settled);
    var i, j := DecidingStands(lists, key, k);
    var p := places[i];
    forall n | 0 <= n < p && settled[n].Some? ensures !HasKey(settled[n].value, key, k) {
      var m :| 0 <= m < |places| && places[m] == n;
      assert m < i && lists[m] == settled[n].value;
    }
    assert settled[p].value == lists[i];
  }

  /** The places among the answers of the faulty providers are no more than these providers. */
  lemma {:induction false} FaultyAnswers<T>(settled: seq<Option<T>>, faulty: set<nat>) returns (among: set<nat>)
    ensures |among| <= |faulty|
    ensures forall i :: 0 <= i < |Places(settled)| && Places(settled)[i] in faulty ==> i in among
  {
    if settled == [] {
      among := {};
    } else {
      var n := |settled| - 1;
      var before, places := Places(settled[..n]), Places(settled);
      among := FaultyAnswers(settled[..n], faulty - {n});
      forall i | 0 <= i < |before| && before[i] in faulty ensures i in among {
        assert before[i] != n;
      }
      if settled[n].Some? && n in faulty {
        among := among + {|before|};
        assert places == before + [n];
      }
    }
  }

  /** Answers that all came. */
  function AllAnswered<T>(values: seq<T>): (r: seq<Option<T>>)
    ensures |r| == |values| && forall i :: 0 <= i < |r| ==> r[i] == Some(values[i])
  {
    seq(|values|, i requires 0 <= i < |values| => Some(values[i]))
  }

  lemma {:induction false} AllAreFulfilled<T>(values: seq<T>)
    ensures Fulfilled(AllAnswered(values)) == values
  {
    if values != [] {
      var settled := AllAnswered(values);
      assert settled[1..] == AllAnswered(values[1..]);
      AllAreFulfilled(values[1..]);
      assert values == [values[0]] + values[1..];
    }
  }
}
