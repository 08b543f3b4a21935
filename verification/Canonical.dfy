/** `sortKeysDeep` and `canonicalSerialize`: two values get the same text exactly when they differ in
    nothing but the order of members. */
module Canonical {
  import opened Wrappers
  import opened Json
  import Text
  import Sorting

  /* ----- JavaScript's orders ----- */

  /** `a < b` on strings compares code units. */
  predicate Less(a: Units, b: Units) {
    b != [] && (a == [] || a[0] < b[0] || (a[0] == b[0] && Less(a[1..], b[1..])))
  }

  lemma {:induction false} LessIsTotal(a: Units, b: Units)
    ensures a == b || Less(a, b) || Less(b, a)
    ensures !(Less(a, b) && Less(b, a)) && !Less(a, a)
  {
    if a != [] {
      LessIsTotal(a[1..], a[1..]);
      if b != [] {
        LessIsTotal(a[1..], b[1..]);
        assert a[0] == b[0] && a[1..] == b[1..] ==> a == [a[0]] + a[1..] == b;
      }
    }
  }

  lemma {:induction false} LessIsTransitive(a: Units, b: Units, c: Units)
    requires Less(a, b) && Less(b, c)
    ensures Less(a, c)
  {
    if a != [] && a[0] == b[0] == c[0] {
      LessIsTransitive(a[1..], b[1..], c[1..]);
    }
  }

  /** a comes first at the first unit in which the two differ, or is a proper prefix of b. */
  predicate Lexicographic(a: Units, b: Units) {
    || (exists i :: 0 <= i < |a| && i < |b| && a[..i] == b[..i] && a[i] < b[i])
    || (|a| < |b| && a == b[..|a|])
  }

  lemma HeadsDecide(a: Units, b: Units)
    requires a != [] && b != [] && a[0] != b[0]
    ensures Lexicographic(a, b) <==> a[0] < b[0]
  {
    assert a[..0] == b[..0];
    assert forall i :: 0 < i < |a| && i < |b| ==> a[..i][0] == a[0] && b[..i][0] == b[0];
    assert |a| < |b| ==> b[..|a|][0] == b[0];
  }

  lemma PrefixesMatch(u: Unit, x: Units, y: Units, i: nat)
    requires i <= |x| && i <= |y|
    ensures ([u] + x)[..i + 1] == ([u] + y)[..i + 1] <==> x[..i] == y[..i]
  {
    var a, b := [u] + x, [u] + y;
    assert a[..i + 1] == [u] + x[..i] && b[..i + 1] == [u] + y[..i];
    assert x[..i] == a[..i + 1][1..] && y[..i] == b[..i + 1][1..];
  }

  lemma HeadsMatch(u: Unit, x: Units, y: Units)
    ensures Lexicographic([u] + x, [u] + y) <==> Lexicographic(x, y)
  {
    var a, b := [u] + x, [u] + y;
    if i :| 0 <= i < |x| && i < |y| && x[..i] == y[..i] && x[i] < y[i] {
      PrefixesMatch(u, x, y, i);
      assert a[i + 1] < b[i + 1];
    }
    if i :| 0 <= i < |a| && i < |b| && a[..i] == b[..i] && a[i] < b[i] {
      PrefixesMatch(u, x, y, i - 1);
      assert x[i - 1] < y[i - 1];
    }
    if |x| < |y| {
      PrefixesMatch(u, x, y, |x|);
      assert x == x[..|x|] && a == a[..|x| + 1];
    }
  }

  lemma {:induction false} LessIsLexicographic(a: Units, b: Units)
    ensures Less(a, b) <==> Lexicographic(a, b)
  {
    if a != [] && b != [] {
      hide Lexicographic;
      LessIsLexicographic(a[1..], b[1..]);
      if a[0] != b[0] {
        HeadsDecide(a, b);
      } else {
        HeadsMatch(a[0], a[1..], b[1..]);
        assert a == [a[0]] + a[1..] && b == [a[0]] + b[1..];
      }
    }
  }

  /** A key that JavaScript takes for an array index. */
  predicate IsIndex(k: Units) {
    && k != []
    && (forall i :: 0 <= i < |k| ==> IsDigit(k[i]))
    && (k[0] == 48 ==> |k| == 1)
    && Text.Spelled(Chars(k)) < 0xFFFF_FFFF
  }

  predicate KeyBefore(a: Member, b: Member) {
    a.key == b.key || Less(a.key, b.key)
  }

  predicate IndexBefore(a: Member, b: Member) {
    IsIndex(a.key) && IsIndex(b.key) && Text.Spelled(Chars(a.key)) <= Text.Spelled(Chars(b.key))
  }

  function InsertBy(before: (Member, Member) -> bool, m: Member, ms: seq<Member>): (r: seq<Member>)
    ensures multiset(r) == multiset(ms) + multiset{m}
  {
    if ms == [] || before(m, ms[0]) then [m] + ms
    else
      assert ms == [ms[0]] + ms[1..];
      [ms[0]] + InsertBy(before, m, ms[1..])
  }

  /** `Array.prototype.sort`, a stable sort. */
  function SortBy(before: (Member, Member) -> bool, ms: seq<Member>): (r: seq<Member>)
    ensures multiset(r) == multiset(ms)
  {
    if ms == [] then []
    else
      assert ms == [ms[0]] + ms[1..];
      InsertBy(before, ms[0], SortBy(before, ms[1..]))
  }

  function Select(ms: seq<Member>, index: bool): seq<Member> {
    if ms == [] then []
    else (if IsIndex(ms[0].key) == index then [ms[0]] else []) + Select(ms[1..], index)
  }

  /** The order in which an object holds its members, whatever the order they were added in:
      array indices first, by number, then the other keys as they were added. */
  function OwnOrder(ms: seq<Member>): seq<Member> {
    SortBy(IndexBefore, Select(ms, true)) + Select(ms, false)
  }

  lemma {:induction false} SelectSplits(ms: seq<Member>)
    ensures multiset(Select(ms, true)) + multiset(Select(ms, false)) == multiset(ms)
  {
    if ms != [] {
      SelectSplits(ms[1..]);
      assert ms == [ms[0]] + ms[1..];
    }
  }

  lemma OwnOrderPermutes(ms: seq<Member>)
    ensures multiset(OwnOrder(ms)) == multiset(ms)
  {
    SelectSplits(ms);
  }

  /* ----- the functions of the source ----- */

  function SortKeysDeep(v: Value): Value
    decreases v
  {
    match v
    case Arr(items) => Arr(seq(|items|, i requires 0 <= i < |items| => SortKeysDeep(items[i])))
    case Obj(members) => Obj(OwnOrder(SortBy(KeyBefore, SortedValues(members))))
    case _ => v
  }

  function SortedValues(ms: seq<Member>): (r: seq<Member>)
    ensures |r| == |ms| && forall i :: 0 <= i < |ms| ==> r[i] == Member(ms[i].key, SortKeysDeep(ms[i].value))
    decreases ms
  {
    seq(|ms|, i requires 0 <= i < |ms| => Member(ms[i].key, SortKeysDeep(ms[i].value)))
  }

  function CanonicalSerialize(v: Value): Units {
    Serialize(SortKeysDeep(v))
  }

  /** `JSON.parse`, on the texts `JSON.stringify` writes: objects come back in their own order. */
  function Parse(t: Units): Option<Value> {
    var r := Read(t);
    if r.Some? && Skip(r.value.1) == [] then Some(Rebuilt(r.value.0)) else None
  }

  function Rebuilt(v: Value): Value
    decreases v
  {
    match v
    case Arr(items) => Arr(seq(|items|, i requires 0 <= i < |items| => Rebuilt(items[i])))
    case Obj(members) => Obj(OwnOrder(RebuiltValues(members)))
    case _ => v
  }

  function RebuiltValues(ms: seq<Member>): (r: seq<Member>)
    ensures |r| == |ms| && forall i :: 0 <= i < |ms| ==> r[i] == Member(ms[i].key, Rebuilt(ms[i].value))
    decreases ms
  {
    seq(|ms|, i requires 0 <= i < |ms| => Member(ms[i].key, Rebuilt(ms[i].value)))
  }

  /* ----- equality up to member order ----- */

  predicate DistinctKeys(ms: seq<Member>) {
    forall i, j :: 0 <= i < j < |ms| ==> ms[i].key != ms[j].key
  }

  /** A JavaScript value: no object has a key twice. */
  predicate Proper(v: Value)
    decreases v
  {
    match v
    case Arr(items) => forall i :: 0 <= i < |items| ==> Proper(items[i])
    case Obj(members) => DistinctKeys(members) && forall i :: 0 <= i < |members| ==> Proper(members[i].value)
    case _ => true
  }

  function Keys(ms: seq<Member>): set<Units> {
    set m | m in ms :: m.key
  }

  /** Equal but for the order of members, at any depth. */
  predicate Same(v: Value, w: Value)
    decreases v
  {
    match v
    case Arr(items) =>
      w.Arr? && |w.items| == |items| && forall i :: 0 <= i < |items| ==> Same(items[i], w.items[i])
    case Obj(members) =>
      && w.Obj?
      && Keys(members) == Keys(w.members)
      && forall i, j :: 0 <= i < |members| && 0 <= j < |w.members| && members[i].key == w.members[j].key
          ==> Same(members[i].value, w.members[j].value)
    case _ => v == w
  }

  /* ----- sorting by key gives one arrangement ----- */

  predicate AscendingKeys(ms: seq<Member>) {
    forall i, j :: 0 <= i < j < |ms| ==> Less(ms[i].key, ms[j].key)
  }

  lemma KeysHold(ms: seq<Member>)
    ensures forall k :: 0 <= k < |ms| ==> ms[k].key in Keys(ms)
    ensures forall x :: x in Keys(ms) ==> exists k :: 0 <= k < |ms| && ms[k].key == x
  {
    forall k | 0 <= k < |ms| ensures ms[k].key in Keys(ms) {
      assert ms[k] in ms;
    }
  }

  lemma {:induction false} InsertKeepsAscending(m: Member, ms: seq<Member>)
    requires AscendingKeys(ms) && m.key !in Keys(ms)
    ensures AscendingKeys(InsertBy(KeyBefore, m, ms))
  {
    hide Less, Keys;
    assert forall k :: 0 <= k < |ms| ==> ms[k].key in Keys(ms) by { KeysHold(ms); }
    if ms != [] {
      LessIsTotal(m.key, ms[0].key);
      if Less(m.key, ms[0].key) {
        forall j | 0 < j < |ms| ensures Less(m.key, ms[j].key) {
          LessIsTransitive(m.key, ms[0].key, ms[j].key);
        }
      } else {
        var rest := InsertBy(KeyBefore, m, ms[1..]);
        assert m.key !in Keys(ms[1..]) by { KeysHold(ms); KeysHold(ms[1..]); }
        InsertKeepsAscending(m, ms[1..]);
        forall k | 0 <= k < |rest| ensures Less(ms[0].key, rest[k].key) {
          assert rest[k] in multiset(ms[1..]) + multiset{m};
        }
      }
    }
  }

  lemma {:induction false} SortedByKey(ms: seq<Member>)
    requires DistinctKeys(ms)
    ensures AscendingKeys(SortBy(KeyBefore, ms))
  {
    hide Less, InsertBy;
    if ms != [] {
      var rest := SortBy(KeyBefore, ms[1..]);
      SortedByKey(ms[1..]);
      assert ms[0].key !in Keys(rest) by {
        assert forall m :: m in rest ==> m in multiset(ms[1..]);
      }
      InsertKeepsAscending(ms[0], rest);
    }
  }

  ghost predicate SameElements(a: seq<Member>, b: seq<Member>) {
    forall m :: m in a <==> m in b
  }

  /** Members in ascending order of key are determined by which members they are. */
  lemma {:induction false} OneAscendingArrangement(a: seq<Member>, b: seq<Member>)
    requires AscendingKeys(a) && AscendingKeys(b)
    requires SameElements(a, b)
    ensures a == b
  {
    hide Less;
    if a == [] {
      if b != [] {
        FirstIsElement(b);
        assert false;
      }
    } else {
      assert a[0] in b && b[0] in a;
      LessIsTotal(a[0].key, b[0].key);
      LessIsTotal(a[0].key, a[0].key);
      assert a[0] == b[0];
      forall m ensures m in a[1..] <==> m in b[1..] {
        assert m in a[1..] <==> m in a && m != a[0] by { OthersFollow(a, m); }
        assert m in b[1..] <==> m in b && m != b[0] by { OthersFollow(b, m); }
      }
      OneAscendingArrangement(a[1..], b[1..]);
      assert a == [a[0]] + a[1..] && b == [b[0]] + b[1..];
    }
  }

  lemma FirstIsElement(a: seq<Member>)
    requires a != []
    ensures a[0] in a
  {
  }

  lemma OthersFollow(a: seq<Member>, m: Member)
    requires AscendingKeys(a) && a != []
    ensures m in a[1..] <==> m in a && m != a[0]
  {
    hide Less;
    LessIsTotal(a[0].key, a[0].key);
  }

  /* ----- canonical values are equal exactly when the values are the same ----- */

  function Canon(ms: seq<Member>): seq<Member> {
    OwnOrder(SortBy(KeyBefore, SortedValues(ms)))
  }

  lemma CanonMembers(ms: seq<Member>, m: Member)
    ensures m in Canon(ms) <==> m in SortedValues(ms)
  {
    hide SortBy, OwnOrder;
    var s := SortBy(KeyBefore, SortedValues(ms));
    OwnOrderPermutes(s);
    assert m in Canon(ms) <==> m in multiset(Canon(ms));
    assert m in SortedValues(ms) <==> m in multiset(SortedValues(ms));
  }

  /** The canonical members are determined by, and determine, the sorted values. */
  lemma CanonDecides(ms: seq<Member>, ns: seq<Member>)
    requires DistinctKeys(ms) && DistinctKeys(ns)
    ensures Canon(ms) == Canon(ns) <==> SameElements(SortedValues(ms), SortedValues(ns))
  {
    hide SortBy, OwnOrder, Less, Canon;
    var a, b := SortedValues(ms), SortedValues(ns);
    if SameElements(a, b) {
      SameElementsSortAlike(a, b);
      assert Canon(ms) == Canon(ns) by { UnfoldCanon(ms); UnfoldCanon(ns); }
    }
    if Canon(ms) == Canon(ns) {
      forall m ensures m in a <==> m in b {
        CanonMembers(ms, m);
        CanonMembers(ns, m);
      }
    }
  }

  lemma UnfoldCanon(ms: seq<Member>)
    ensures Canon(ms) == OwnOrder(SortBy(KeyBefore, SortedValues(ms)))
  {
  }

  lemma SameElementsSortAlike(a: seq<Member>, b: seq<Member>)
    requires DistinctKeys(a) && DistinctKeys(b) && SameElements(a, b)
    ensures SortBy(KeyBefore, a) == SortBy(KeyBefore, b)
  {
    hide SortBy, Less;
    var x, y := SortBy(KeyBefore, a), SortBy(KeyBefore, b);
    SortedByKey(a);
    SortedByKey(b);
    forall m ensures m in x <==> m in y {
      assert m in x <==> m in multiset(x);
      assert m in y <==> m in multiset(y);
      assert m in a <==> m in multiset(a);
      assert m in b <==> m in multiset(b);
    }
    OneAscendingArrangement(x, y);
  }

  lemma {:induction false} SortedDecides(v: Value, w: Value)
    requires Proper(v) && Proper(w)
    ensures SortKeysDeep(v) == SortKeysDeep(w) <==> Same(v, w)
    decreases v
  {
    hide SortBy, OwnOrder, SortKeysDeep;
    SortedShape(v);
    SortedShape(w);
    if v.Arr? && w.Arr? && |v.items| == |w.items| {
      forall i | 0 <= i < |v.items|
        ensures SortKeysDeep(v.items[i]) == SortKeysDeep(w.items[i]) <==> Same(v.items[i], w.items[i])
      {
        SortedDecides(v.items[i], w.items[i]);
      }
      ItemsDecide(v, w);
    } else if v.Obj? && w.Obj? {
      var ms, ns := v.members, w.members;
      forall i, j | 0 <= i < |ms| && 0 <= j < |ns|
        ensures SortKeysDeep(ms[i].value) == SortKeysDeep(ns[j].value) <==> Same(ms[i].value, ns[j].value)
      {
        SortedDecides(ms[i].value, ns[j].value);
      }
      CanonDecides(ms, ns);
      ValuesDecide(ms, ns);
    }
  }

  /** Sorting leaves everything but the members of objects as it was. */
  lemma SortedShape(v: Value)
    ensures v.Arr? ==> SortKeysDeep(v).Arr? && |SortKeysDeep(v).items| == |v.items|
    ensures v.Obj? ==> SortKeysDeep(v) == Obj(Canon(v.members))
    ensures !v.Arr? && !v.Obj? ==> SortKeysDeep(v) == v
  {
    hide SortBy, OwnOrder;
  }

  lemma ItemsDecide(v: Value, w: Value)
    requires v.Arr? && w.Arr? && |v.items| == |w.items|
    requires forall i :: 0 <= i < |v.items| ==>
      (SortKeysDeep(v.items[i]) == SortKeysDeep(w.items[i]) <==> Same(v.items[i], w.items[i]))
    ensures SortKeysDeep(v) == SortKeysDeep(w) <==> Same(v, w)
  {
    hide SortBy, OwnOrder;
    var a, b := SortKeysDeep(v).items, SortKeysDeep(w).items;
    assert forall i :: 0 <= i < |a| ==> a[i] == SortKeysDeep(v.items[i]) && b[i] == SortKeysDeep(w.items[i]);
    assert a == b <==> forall i :: 0 <= i < |a| ==> a[i] == b[i];
  }

  lemma ValuesDecide(ms: seq<Member>, ns: seq<Member>)
    requires DistinctKeys(ms) && DistinctKeys(ns)
    requires forall i, j :: 0 <= i < |ms| && 0 <= j < |ns| ==>
      (SortKeysDeep(ms[i].value) == SortKeysDeep(ns[j].value) <==> Same(ms[i].value, ns[j].value))
    ensures SameElements(SortedValues(ms), SortedValues(ns)) <==> Same(Obj(ms), Obj(ns))
  {
    hide SortKeysDeep, Keys, SortedValues;
    var a, b := SortedValues(ms), SortedValues(ns);
    if SameElements(a, b) {
      KeysIncluded(ms, ns);
      KeysIncluded(ns, ms);
      forall i, j | 0 <= i < |ms| && 0 <= j < |ns| && ms[i].key == ns[j].key
        ensures Same(ms[i].value, ns[j].value)
      {
        SharedValue(ms, ns, i, j);
      }
    }
    if Same(Obj(ms), Obj(ns)) {
      ValuesIncluded(ms, ns);
      ValuesIncluded(ns, ms);
    }
  }

  lemma SharedValue(ms: seq<Member>, ns: seq<Member>, i: nat, j: nat)
    requires DistinctKeys(ns) && i < |ms| && j < |ns| && ms[i].key == ns[j].key
    requires SameElements(SortedValues(ms), SortedValues(ns))
    ensures SortKeysDeep(ms[i].value) == SortKeysDeep(ns[j].value)
  {
    hide SortKeysDeep, SortedValues, SameElements, DistinctKeys;
    var a, b := SortedValues(ms), SortedValues(ns);
    var k := PlaceOf(a, b, i);
    assert ns[k].key == b[k].key == a[i].key == ns[j].key;
    assert k == j by { DistinctKeysMeet(ns); }
  }

  lemma PlaceOf(a: seq<Member>, b: seq<Member>, i: nat) returns (k: nat)
    requires SameElements(a, b) && i < |a|
    ensures k < |b| && b[k] == a[i]
  {
    assert a[i] in a;
    k :| k < |b| && b[k] == a[i];
  }

  lemma KeysIncluded(ms: seq<Member>, ns: seq<Member>)
    requires forall m :: m in SortedValues(ms) ==> m in SortedValues(ns)
    ensures Keys(ms) <= Keys(ns)
  {
    hide SortKeysDeep;
    var a, b := SortedValues(ms), SortedValues(ns);
    forall m | m in ms ensures m.key in Keys(ns) {
      var i :| 0 <= i < |ms| && ms[i] == m;
      assert a[i] in b;
      var k :| 0 <= k < |b| && b[k] == a[i];
      assert ns[k] in ns && ns[k].key == m.key;
    }
  }

  lemma ValuesIncluded(ms: seq<Member>, ns: seq<Member>)
    requires Keys(ms) <= Keys(ns)
    requires forall i, j :: 0 <= i < |ms| && 0 <= j < |ns| && ms[i].key == ns[j].key ==>
      SortKeysDeep(ms[i].value) == SortKeysDeep(ns[j].value)
    ensures forall m :: m in SortedValues(ms) ==> m in SortedValues(ns)
  {
    hide SortKeysDeep;
    var a, b := SortedValues(ms), SortedValues(ns);
    forall m | m in a ensures m in b {
      var i :| 0 <= i < |a| && a[i] == m;
      assert ms[i] in ms && ms[i].key in Keys(ns);
      var n :| n in ns && n.key == ms[i].key;
      var j :| 0 <= j < |ns| && ns[j] == n;
      assert b[j] == m;
    }
  }

  /* ----- the order of the members in a canonical object ----- */

  /** Array indices stand first, by number; the other keys follow as strings compare. */
  predicate CanonicalBefore(a: Units, b: Units) {
    if IsIndex(a) then IsIndex(b) ==> Number(a) <= Number(b)
    else !IsIndex(b) && Lexicographic(a, b)
  }

  function Number(k: Units): int
    requires IsIndex(k)
  {
    Text.Spelled(Chars(k))
  }

  lemma CanonicalOrder(ms: seq<Member>, i: nat, j: nat)
    requires DistinctKeys(ms) && i < j < |SortKeysDeep(Obj(ms)).members|
    ensures CanonicalBefore(SortKeysDeep(Obj(ms)).members[i].key, SortKeysDeep(Obj(ms)).members[j].key)
  {
    hide SortBy, Less, SortKeysDeep, Lexicographic, IsIndex, Number, SortedValues, Select, AscendingKeys;
    SortedShape(Obj(ms));
    UnfoldCanon(ms);
    var s := SortBy(KeyBefore, SortedValues(ms));
    SortedByKey(SortedValues(ms));
    var indices, others := SortBy(IndexBefore, Select(s, true)), Select(s, false);
    SelectedAre(s, true);
    SelectedAre(s, false);
    SelectKeepsOrder(s);
    SortedByNumber(Select(s, true));
    assert Canon(ms) == indices + others;
    forall k | 0 <= k < |indices| ensures IsIndex(indices[k].key) {
      assert indices[k] in multiset(Select(s, true));
    }
    assert forall k :: 0 <= k < |others| ==> others[k] in others;
    if i >= |indices| {
      InOrder(others, i - |indices|, j - |indices|);
      LessIsLexicographic(others[i - |indices|].key, others[j - |indices|].key);
    }
  }

  lemma InOrder(ms: seq<Member>, i: nat, j: nat)
    requires AscendingKeys(ms) && i < j < |ms|
    ensures Less(ms[i].key, ms[j].key)
  {
  }

  lemma {:induction false} SelectedAre(ms: seq<Member>, index: bool)
    ensures forall m :: m in Select(ms, index) <==> m in ms && IsIndex(m.key) == index
  {
    hide IsIndex;
    if ms != [] { SelectedAre(ms[1..], index); }
  }

  lemma {:induction false} SelectKeepsOrder(ms: seq<Member>)
    requires AscendingKeys(ms)
    ensures AscendingKeys(Select(ms, false))
  {
    hide IsIndex, Less;
    if ms != [] {
      SelectKeepsOrder(ms[1..]);
      SelectedAre(ms[1..], false);
      var rest := Select(ms[1..], false);
      forall k | 0 <= k < |rest| ensures Less(ms[0].key, rest[k].key) {
        assert rest[k] in ms[1..];
      }
    }
  }

  predicate ByNumber(ms: seq<Member>) {
    && (forall i :: 0 <= i < |ms| ==> IsIndex(ms[i].key))
    && forall i, j :: 0 <= i < j < |ms| ==> Number(ms[i].key) <= Number(ms[j].key)
  }

  lemma NumbersDecide(a: Member, b: Member)
    ensures IndexBefore(a, b) <==> IsIndex(a.key) && IsIndex(b.key) && Number(a.key) <= Number(b.key)
  {
  }

  predicate NoLess(k: Units, ms: seq<Member>) {
    IsIndex(k) && forall m :: m in ms ==> IsIndex(m.key) && Number(k) <= Number(m.key)
  }

  lemma ByNumberFromHead(m: Member, ms: seq<Member>)
    ensures ByNumber([m] + ms) <==> NoLess(m.key, ms) && ByNumber(ms)
  {
    hide IsIndex, Number;
    var all := [m] + ms;
    assert all[0] == m && forall i :: 0 <= i < |ms| ==> ms[i] == all[i + 1];
    if ByNumber(all) {
      assert IsIndex(all[0].key);
      assert ByNumber(ms) by {
        forall i | 0 <= i < |ms| ensures IsIndex(ms[i].key) {
          assert IsIndex(all[i + 1].key);
        }
        forall i, j | 0 <= i < j < |ms| ensures Number(ms[i].key) <= Number(ms[j].key) {
          assert Number(all[i + 1].key) <= Number(all[j + 1].key);
        }
      }
      forall x | x in ms ensures IsIndex(x.key) && Number(m.key) <= Number(x.key) {
        var i :| 0 <= i < |ms| && ms[i] == x;
        assert all[i + 1] == x;
      }
    }
  }

  lemma {:induction false} InsertByNumber(m: Member, ms: seq<Member>)
    requires IsIndex(m.key) && ByNumber(ms)
    ensures ByNumber(InsertBy(IndexBefore, m, ms))
  {
    hide IsIndex, Number, IndexBefore, ByNumber;
    if ms == [] {
      ByNumberFromHead(m, ms);
    } else {
      var head, tail := ms[0], ms[1..];
      assert ms == [head] + tail;
      ByNumberFromHead(head, tail);
      NumbersDecide(m, head);
      if IndexBefore(m, head) {
        ByNumberFromHead(m, ms);
      } else {
        InsertByNumber(m, tail);
        var rest := InsertBy(IndexBefore, m, tail);
        assert forall x :: x in rest ==> x in multiset(tail) + multiset{m};
        ByNumberFromHead(head, rest);
      }
    }
  }

  lemma {:induction false} SortedByNumber(ms: seq<Member>)
    requires forall m :: m in ms ==> IsIndex(m.key)
    ensures ByNumber(SortBy(IndexBefore, ms))
  {
    assert ByNumber([]);
    hide InsertBy, IsIndex, Number, IndexBefore, ByNumber;
    if ms != [] {
      SortedByNumber(ms[1..]);
      InsertByNumber(ms[0], SortBy(IndexBefore, ms[1..]));
    }
  }

  /** The canonical text decides sameness: equal texts for values that differ in member order only,
      different texts for any other two values. */
  lemma CanonicalTextDecides(v: Value, w: Value)
    requires Proper(v) && Proper(w)
    ensures CanonicalSerialize(v) == CanonicalSerialize(w) <==> Same(v, w)
  {
    hide SortKeysDeep, Serialize, Same;
    SortedDecides(v, w);
    if CanonicalSerialize(v) == CanonicalSerialize(w) {
      SerializeInjective(SortKeysDeep(v), SortKeysDeep(w));
    }
  }

  /* ----- stringify, then parse ----- */

  lemma {:induction false} RebuiltIsSame(v: Value)
    requires Proper(v)
    ensures Proper(Rebuilt(v)) && Same(v, Rebuilt(v))
    decreases v
  {
    hide OwnOrder;
    if v.Arr? {
      forall i | 0 <= i < |v.items| ensures Proper(Rebuilt(v.items[i])) && Same(v.items[i], Rebuilt(v.items[i])) {
        RebuiltIsSame(v.items[i]);
      }
    } else if v.Obj? {
      var ms := v.members;
      forall i | 0 <= i < |ms| ensures Proper(Rebuilt(ms[i].value)) && Same(ms[i].value, Rebuilt(ms[i].value)) {
        RebuiltIsSame(ms[i].value);
      }
      RebuiltObject(ms);
    }
  }

  lemma RebuiltObject(ms: seq<Member>)
    requires DistinctKeys(ms)
    requires forall i :: 0 <= i < |ms| ==> Proper(Rebuilt(ms[i].value)) && Same(ms[i].value, Rebuilt(ms[i].value))
    ensures Proper(Rebuilt(Obj(ms))) && Same(Obj(ms), Rebuilt(Obj(ms)))
  {
    hide OwnOrder, Keys, DistinctKeys;
    assert forall i, j :: 0 <= i < |ms| && 0 <= j < |ms| && ms[i].key == ms[j].key ==> i == j by {
      DistinctKeysMeet(ms);
    }
    var a := RebuiltValues(ms);
    RebuiltKeysStayDistinct(ms);
    var b := OwnOrder(a);
    OwnOrderPermutes(a);
    PermutedKeysStayDistinct(a, b);
    assert Rebuilt(Obj(ms)) == Obj(b);
    forall k | 0 <= k < |b| ensures Proper(b[k].value) {
      var i := Origin(a, b, k);
      assert b[k] == Member(ms[i].key, Rebuilt(ms[i].value));
    }
    forall i, k | 0 <= i < |ms| && 0 <= k < |b| && ms[i].key == b[k].key ensures Same(ms[i].value, b[k].value) {
      var j := Origin(a, b, k);
      assert ms[j].key == ms[i].key;
      assert j == i;
    }
    PermutedKeys(ms, a, b);
    assert Proper(Obj(b));
    assert Same(Obj(ms), Obj(b));
  }

  lemma Origin(a: seq<Member>, b: seq<Member>, k: nat) returns (i: nat)
    requires multiset(a) == multiset(b) && k < |b|
    ensures i < |a| && a[i] == b[k]
  {
    assert b[k] in multiset(a);
    i :| i < |a| && a[i] == b[k];
  }

  lemma PermutedKeys(ms: seq<Member>, a: seq<Member>, b: seq<Member>)
    requires multiset(a) == multiset(b) && |a| == |ms| && forall i :: 0 <= i < |ms| ==> a[i].key == ms[i].key
    ensures Keys(ms) == Keys(b)
  {
    forall m | m in ms ensures m.key in Keys(b) {
      var i :| 0 <= i < |ms| && ms[i] == m;
      var k := Origin(b, a, i);
      assert b[k] in b;
    }
    forall m | m in b ensures m.key in Keys(ms) {
      var k :| 0 <= k < |b| && b[k] == m;
      var i := Origin(a, b, k);
      assert ms[i] in ms;
    }
  }

  lemma DistinctKeysMeet(ms: seq<Member>)
    requires DistinctKeys(ms)
    ensures forall i, j :: 0 <= i < |ms| && 0 <= j < |ms| && ms[i].key == ms[j].key ==> i == j
  {
  }

  lemma RebuiltKeysStayDistinct(ms: seq<Member>)
    requires DistinctKeys(ms)
    ensures DistinctKeys(RebuiltValues(ms))
  {
    hide Rebuilt;
  }

  lemma PermutedKeysStayDistinct(a: seq<Member>, b: seq<Member>)
    requires multiset(a) == multiset(b) && DistinctKeys(a)
    ensures DistinctKeys(b)
  {
    Sorting.DistinctByMultiplicity(a);
    Sorting.DistinctByMultiplicity(b);
    assert Sorting.Distinct(a);
    assert forall m :: m in b ==> m in multiset(b) && m in multiset(a);
    assert Sorting.Distinct(b);
    forall i, j | 0 <= i < j < |b| ensures b[i].key != b[j].key {
      var x := Origin(a, b, i);
      var y := Origin(a, b, j);
      assert b[i] != b[j];
    }
  }

  /** `JSON.parse(JSON.stringify(v))` is the same value, for keys of every kind. */
  lemma ParseUndoesStringify(v: Value)
    requires Proper(v)
    ensures Parse(Serialize(v)).Some?
    ensures Proper(Parse(Serialize(v)).value) && Same(v, Parse(Serialize(v)).value)
  {
    hide Serialize, Read, Rebuilt, Same, Proper;
    ReadsBack(v, []);
    assert Serialize(v) + [] == Serialize(v);
    RebuiltIsSame(v);
  }

  /** White space between the tokens makes no difference: `JSON.stringify(v, null, gap)` parses as the
      compact text does. */
  lemma ParseIgnoresIndentation(v: Value, gap: nat)
    ensures Parse(Pretty(v, gap, 0)) == Parse(Serialize(v))
  {
    hide Serialize, Read, Rebuilt, Pretty;
    ReadsBack(v, []);
    PrettyReadsBack(v, gap, 0, [], []);
    assert Serialize(v) + [] == Serialize(v);
    assert [] + (Pretty(v, gap, 0) + []) == Pretty(v, gap, 0);
  }
}
