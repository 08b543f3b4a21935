/** When the vault merge depends on the order of its sources, and when it does not. */
module VaultOrder {
  import opened Wrappers
  import opened Tally
  import opened Quorum

  lemma {:induction false} HeadDecides(head: seq<Vault>, rest: seq<seq<Vault>>, k: string)
    requires FirstIn(head, VaultKey, k).Some?
    ensures Deciding([head] + rest, VaultKey, k) == FirstIn(head, VaultKey, k)
  {
    var lists := [head] + rest;
    if rest == [] {
      assert lists[..0] == [];
    } else {
      assert lists[..|lists| - 1] == [head] + rest[..|rest| - 1];
      HeadDecides(head, rest[..|rest| - 1], k);
    }
  }

  /** The vault with key k comes through the merge. */
  ghost predicate Merged(lists: seq<seq<Vault>>, k: string) {
    Reports(lists, VaultKey, k) >= 2 && Deciding(lists, VaultKey, k).Some? && Live(Deciding(lists, VaultKey, k).value)
  }

  /** `Merged` says what the merge loops return. */
  lemma MergedIsReturned(lists: seq<seq<Vault>>, k: string)
    ensures Sound(TallyOf(lists, VaultKey), VaultKey)
    ensures var t := TallyOf(lists, VaultKey); HasKey(Accepted(t, t.order, 2, Live), VaultKey, k) <==> Merged(lists, k)
  {
    hide VaultKey;
    MergeIsTheQuorumSet(lists, VaultKey, 2, Live);
    DecidingIsFirst(lists, VaultKey, k);
  }

  ghost predicate SameMerge(a: seq<seq<Vault>>, b: seq<seq<Vault>>) {
    forall k :: Merged(a, k) <==> Merged(b, k)
  }

  /** Sources that report the same vault agree on whether it is live. */
  ghost predicate Agreeing(lists: seq<seq<Vault>>) {
    forall k, i, j ::
      (0 <= i < |lists| && 0 <= j < |lists|
       && FirstIn(lists[i], VaultKey, k).Some? && FirstIn(lists[j], VaultKey, k).Some?
       && Reports(lists, VaultKey, k) >= 2)
      ==> Live(FirstIn(lists[i], VaultKey, k).value) == Live(FirstIn(lists[j], VaultKey, k).value)
  }

  /** The list moved to the front. */
  function Fronted(lists: seq<seq<Vault>>, i: nat): (r: seq<seq<Vault>>)
    requires i < |lists|
    ensures multiset(r) == multiset(lists)
  {
    assert lists == lists[..i] + [lists[i]] + lists[i + 1..];
    [lists[i]] + (lists[..i] + lists[i + 1..])
  }

  lemma AgreeingMergesAlike(a: seq<seq<Vault>>, b: seq<seq<Vault>>)
    requires multiset(a) == multiset(b) && Agreeing(a)
    ensures SameMerge(a, b)
  {
    hide VaultKey, FirstIn, Live, Deciding;
    forall k ensures Merged(a, k) <==> Merged(b, k) {
      ReportsIgnoreOrder(a, b, VaultKey, k);
      if Reports(a, VaultKey, k) >= 2 {
        SomeoneDecides(a, k);
        SomeoneDecides(b, k);
        var i, _ := DecidingStands(a, VaultKey, k);
        var j, _ := DecidingStands(b, VaultKey, k);
        assert b[j] in multiset(a);
        var j' :| 0 <= j' < |a| && a[j'] == b[j];
      }
    }
  }

  lemma SomeoneDecides(lists: seq<seq<Vault>>, k: string)
    requires Reports(lists, VaultKey, k) >= 1
    ensures Deciding(lists, VaultKey, k).Some?
  {
    hide VaultKey, Deciding;
    MergeIsTheQuorumSet(lists, VaultKey, 1, Live);
    DecidingIsFirst(lists, VaultKey, k);
  }

  /** The merge is the same for every order of the sources if and only if sources that report the same
      vault agree on whether it is live. */
  lemma VaultMergeIgnoresOrderExactly(a: seq<seq<Vault>>)
    ensures (forall b :: multiset(b) == multiset(a) ==> SameMerge(a, b)) <==> Agreeing(a)
  {
    hide VaultKey, FirstIn, Live, Deciding, Fronted;
    if Agreeing(a) {
      forall b | multiset(b) == multiset(a) ensures SameMerge(a, b) { AgreeingMergesAlike(a, b); }
    }
    if forall b :: multiset(b) == multiset(a) ==> SameMerge(a, b) {
      forall k, i, j | 0 <= i < |a| && 0 <= j < |a|
                       && FirstIn(a[i], VaultKey, k).Some? && FirstIn(a[j], VaultKey, k).Some?
                       && Reports(a, VaultKey, k) >= 2
        ensures Live(FirstIn(a[i], VaultKey, k).value) == Live(FirstIn(a[j], VaultKey, k).value)
      {
        FrontDecides(a, i, k);
        FrontDecides(a, j, k);
        assert SameMerge(a, Fronted(a, i)) && SameMerge(a, Fronted(a, j));
      }
    }
  }

  lemma FrontDecides(a: seq<seq<Vault>>, i: nat, k: string)
    requires i < |a| && FirstIn(a[i], VaultKey, k).Some? && Reports(a, VaultKey, k) >= 2
    ensures Merged(Fronted(a, i), k) <==> Live(FirstIn(a[i], VaultKey, k).value)
  {
    hide VaultKey, FirstIn, Live, Deciding;
    ReportsIgnoreOrder(a, Fronted(a, i), VaultKey, k);
    HeadDecides(a[i], a[..i] + a[i + 1..], k);
  }
}
