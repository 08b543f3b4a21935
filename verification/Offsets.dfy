/** Ring positions: absolute output indices turned into the differences Monero serialises. */
module Offsets {
  import opened Wrappers
  import opened Sorting

  datatype OffsetError = EmptyOffsets | DuplicateOffset(index: nat)

  function Sum(s: seq<int>): int {
    if s == [] then 0 else Sum(s[..|s| - 1]) + s[|s| - 1]
  }

  /** Every prefix of the differences adds up to the index at that place. */
  predicate Differences(relative: seq<int>, absolute: seq<int>) {
    && |relative| == |absolute|
    && forall k :: 0 <= k < |relative| ==> Sum(relative[..k + 1]) == absolute[k]
  }

  lemma SortedSteps(absolute: seq<nat>)
    ensures var sorted := Sort(absolute);
      && |sorted| == |absolute|
      && (forall k :: 0 <= k < |sorted| ==> sorted[k] >= 0)
      && (forall k :: 1 <= k < |sorted| ==> sorted[k - 1] <= sorted[k])
      && (Distinct(absolute) <==> StrictlyAscending(sorted))
  {
    var sorted := Sort(absolute);
    SortStrictExactlyWhenDistinct(absolute);
    forall k | 0 <= k < |sorted| ensures sorted[k] >= 0 {
      assert sorted[k] in absolute;
    }
  }

  /** Position i is the first that repeats the entry before it. */
  predicate FirstRepeat(sorted: seq<int>, i: nat) {
    1 <= i < |sorted| && sorted[i] == sorted[i - 1] && forall k :: 1 <= k < i ==> sorted[k - 1] < sorted[k]
  }

  /** The first entry and the steps between the next ones, all positive. */
  predicate StepsOf(relative: seq<nat>, sorted: seq<int>) {
    && 0 < |relative| <= |sorted| && relative[0] == sorted[0]
    && forall k :: 1 <= k < |relative| ==> relative[k] == sorted[k] - sorted[k - 1] && relative[k] > 0
  }

  lemma OneMoreStep(relative: seq<nat>, sorted: seq<int>, step: nat)
    requires StepsOf(relative, sorted) && |relative| < |sorted|
    requires 0 < step == sorted[|relative|] - sorted[|relative| - 1]
    ensures StepsOf(relative + [step], sorted)
  {
  }

  lemma RepeatIsFirst(relative: seq<nat>, sorted: seq<int>)
    requires StepsOf(relative, sorted) && |relative| < |sorted| && sorted[|relative|] == sorted[|relative| - 1]
    ensures FirstRepeat(sorted, |relative|) && !StrictlyAscending(sorted)
  {
    assert forall k :: 1 <= k < |relative| ==> relative[k] == sorted[k] - sorted[k - 1] && relative[k] > 0;
  }

  lemma AllSteps(relative: seq<nat>, sorted: seq<int>)
    requires StepsOf(relative, sorted) && |relative| == |sorted|
    ensures Differences(relative, sorted) && StrictlyAscending(sorted)
    ensures forall k :: 1 <= k < |relative| ==> relative[k] > 0
  {
    Telescope(relative, sorted);
    PositiveStepsAscend(relative, sorted);
  }

  method AbsoluteToRelativeOffsets(absolute: seq<nat>) returns (r: Result<seq<nat>, OffsetError>)
    ensures r.Ok? <==> absolute != [] && Distinct(absolute)
    ensures r.Ok? ==> Differences(r.value, Sort(absolute))
    ensures r == Err(EmptyOffsets) <==> absolute == []
    ensures r.Err? && absolute != [] ==> r.error.DuplicateOffset? && FirstRepeat(Sort(absolute), r.error.index)
    ensures r.Ok? ==> forall k :: 1 <= k < |r.value| ==> r.value[k] > 0
  {
    if |absolute| == 0 { return Err(EmptyOffsets); }
    var sorted: seq<int> := Sort(absolute);
    SortedSteps(absolute);
    var relative: seq<nat> := [sorted[0]];
    assert StepsOf(relative, sorted);
    hide Sort, Distinct, Differences, StrictlyAscending, Ascending, StepsOf, FirstRepeat;
    for i := 1 to |sorted|
      invariant |relative| == i && StepsOf(relative, sorted)
    {
      var diff := sorted[i] - sorted[i - 1];
      if diff == 0 {
        RepeatIsFirst(relative, sorted);
        return Err(DuplicateOffset(i));
      }
      OneMoreStep(relative, sorted, diff);
      relative := relative + [diff];
    }
    AllSteps(relative, sorted);
    return Ok(relative);
  }

  lemma {:induction false} TelescopeTo(relative: seq<int>, sorted: seq<int>, k: nat)
    requires k < |relative| == |sorted| && relative[0] == sorted[0]
    requires forall i :: 1 <= i < |relative| ==> relative[i] == sorted[i] - sorted[i - 1]
    ensures Sum(relative[..k + 1]) == sorted[k]
  {
    assert relative[..k + 1][..k] == relative[..k];
    if k > 0 {
      TelescopeTo(relative, sorted, k - 1);
    }
  }

  lemma Telescope(relative: seq<int>, sorted: seq<int>)
    requires 0 < |relative| == |sorted| && relative[0] == sorted[0]
    requires forall i :: 1 <= i < |relative| ==> relative[i] == sorted[i] - sorted[i - 1]
    ensures Differences(relative, sorted)
  {
    forall k | 0 <= k < |relative| ensures Sum(relative[..k + 1]) == sorted[k] {
      TelescopeTo(relative, sorted, k);
    }
  }

  lemma PositiveStepsAscend(relative: seq<int>, sorted: seq<int>)
    requires 0 < |relative| == |sorted|
    requires forall i :: 1 <= i < |relative| ==> relative[i] == sorted[i] - sorted[i - 1] && relative[i] > 0
    ensures StrictlyAscending(sorted)
  {
    forall i, j | 0 <= i < j < |sorted| ensures sorted[i] < sorted[j] {
      AscendsFrom(sorted, i, j);
    }
  }

  lemma {:induction false} AscendsFrom(sorted: seq<int>, i: nat, j: nat)
    requires i < j < |sorted| && forall k :: 1 <= k < |sorted| ==> sorted[k - 1] < sorted[k]
    ensures sorted[i] < sorted[j]
  {
    if i < j - 1 {
      AscendsFrom(sorted, i, j - 1);
    }
  }

  /** The differences determine the indices: two rings with the same offsets are the same ring. */
  lemma DifferencesDetermine(relative: seq<int>, a: seq<int>, b: seq<int>)
    requires Differences(relative, a) && Differences(relative, b)
    ensures a == b
  {
    forall k | 0 <= k < |a| ensures a[k] == b[k] {
      assert Sum(relative[..k + 1]) == a[k];
    }
  }
}
