/** Ring selection: the real output among decoys drawn from the unlocked part of the chain.
    Gamma samples and random words are arbitrary inputs, one pair for each iteration. The counts a node
    reports are arbitrary too: only the bound on the decoys needs them to be nondecreasing. */
module Decoys {
  import opened Wrappers
  import opened Sorting
  import opened Offsets

  const MAX_ITERATIONS: nat := 1000
  const BLOCKS_PER_YEAR: nat := 262_800

  datatype SelectError =
    | ZeroWindow | DistributionTooShort | RingTooSmall | NotEnoughOutputs | NoOutputsPerSecond | TooManyIterations

  /** `offset` is the sampled age times the output rate, as an integer; `word` a random u64; `found` is
      where the binary search ends on counts that are not nondecreasing, which the library leaves open. */
  datatype Draw = Draw(offset: nat, word: nat, found: nat)

  datatype Selection = Selection(indices: seq<int>, realIndexInRing: nat)

  predicate Nondecreasing(distribution: seq<nat>) {
    forall i, j :: 0 <= i < j < |distribution| ==> distribution[i] <= distribution[j]
  }

  /** The first position whose entry reaches the target. */
  function PartitionPoint(distribution: seq<nat>, target: nat): (r: nat)
    ensures r <= |distribution|
    ensures r < |distribution| ==> distribution[r] >= target
    ensures forall i :: 0 <= i < r ==> distribution[i] < target
  {
    if distribution == [] || distribution[0] >= target then 0
    else
      var r := PartitionPoint(distribution[1..], target);
      assert forall i :: 1 <= i < r + 1 ==> distribution[i] == distribution[1..][i - 1];
      r + 1
  }

  /** Outputs created over the last year, or over the whole chain when it is younger. The rate they
      give is zero exactly when they are. */
  function RecentOutputs(distribution: seq<nat>): nat
    requires distribution != []
  {
    var n := |distribution|;
    var blocks := if n < BLOCKS_PER_YEAR then n else BLOCKS_PER_YEAR;
    var initial := distribution[if n < blocks + 1 then 0 else n - (blocks + 1)];
    if distribution[n - 1] < initial then 0 else distribution[n - 1] - initial
  }

  /** Where the search for a target ends: at the partition point when there is one. */
  function BlockOf(distribution: seq<nat>, target: nat, d: Draw): (r: nat)
    ensures r <= |distribution|
  {
    if Nondecreasing(distribution) then PartitionPoint(distribution, target)
    else if d.found <= |distribution| then d.found else |distribution|
  }

  /** The output a draw picks, or None when it picks none: too old, or an empty block. `spendable` is
      the position whose entry bounds the unlocked outputs. */
  function Pick(distribution: seq<nat>, spendable: nat, d: Draw): (r: Option<nat>)
    requires spendable < |distribution|
    ensures Nondecreasing(distribution) && r.Some? ==> r.value < distribution[spendable]
  {
    var bound := distribution[spendable];
    if d.offset >= bound then None
    else
      var target := bound - 1 - d.offset;
      var block := BlockOf(distribution, target, d);
      assert Nondecreasing(distribution) ==> block <= spendable;
      var previous := if block == 0 then 0 else distribution[block - 1];
      var upTo := if block < |distribution| then distribution[block] else 0;
      var outputs := if upTo < previous then 0 else upTo - previous;
      if outputs == 0 then None else Some(previous + d.word % outputs)
  }

  /** The decoys chosen after n iterations, in the order they were drawn. */
  function Chosen(own: nat, distribution: seq<nat>, spendable: nat, count: nat, draws: nat -> Draw, n: nat)
    : (r: seq<nat>)
    requires spendable < |distribution|
    ensures |r| <= count && |r| <= n
    ensures forall i :: 0 <= i < |r| ==> r[i] != own
    ensures Nondecreasing(distribution) ==> forall i :: 0 <= i < |r| ==> r[i] < distribution[spendable]
    ensures Distinct(r)
  {
    if n == 0 then []
    else
      var before := Chosen(own, distribution, spendable, count, draws, n - 1);
      var pick := Pick(distribution, spendable, draws(n - 1));
      if |before| == count || pick.None? || pick.value == own || pick.value in before then before
      else before + [pick.value]
  }

  /** With `bound` unlocked outputs, x is in the block that holds the output `d.offset` + 2 places from the
      bound, or in the first block where that is before the first output: as many outputs from the start
      of the block as the random word says, modulo the size of the block. */
  predicate InBlock(distribution: seq<nat>, bound: nat, d: Draw, block: nat, x: nat) {
    && block < |distribution|
    && var start := if block == 0 then 0 else distribution[block - 1];
    && (block == 0 || start <= bound - 2 - d.offset) && bound - 2 - d.offset < distribution[block]
    && start < distribution[block] && x == start + d.word % (distribution[block] - start)
  }

  /** What a draw picks: an output of the block that its offset reaches back to. It picks none if the offset
      goes back beyond the first output, or to it while the first block is empty. */
  lemma PickInFull(distribution: seq<nat>, spendable: nat, d: Draw)
    requires spendable < |distribution| && Nondecreasing(distribution)
    ensures var bound, r := distribution[spendable], Pick(distribution, spendable, d);
      && (r.None? <==> d.offset >= bound || (d.offset == bound - 1 && distribution[0] == 0))
      && (r.Some? ==> exists block :: 0 <= block <= spendable && InBlock(distribution, bound, d, block, r.value))
  {
    hide PartitionPoint;
    var bound := distribution[spendable];
    if d.offset < bound {
      var target := bound - 1 - d.offset;
      var block := PartitionPoint(distribution, target);
      assert block <= spendable;
      var r := Pick(distribution, spendable, d);
      if r.Some? {
        assert InBlock(distribution, bound, d, block, r.value);
      }
    }
  }

  /** One of the first n draws picks x. */
  ghost predicate Picked(distribution: seq<nat>, spendable: nat, draws: nat -> Draw, n: nat, x: nat)
    requires spendable < |distribution|
  {
    exists m :: 0 <= m < n && Pick(distribution, spendable, draws(m)) == Some(x)
  }

  /** The decoys are the outputs picked so far, other than the real one, as long as they are too few. */
  lemma {:induction false} ChosenArePicked(own: nat, distribution: seq<nat>, spendable: nat, count: nat,
                                           draws: nat -> Draw, n: nat)
    requires spendable < |distribution|
    requires n > 0 ==> |Chosen(own, distribution, spendable, count, draws, n - 1)| < count
    ensures forall x: nat :: x in Chosen(own, distribution, spendable, count, draws, n) <==>
      x != own && Picked(distribution, spendable, draws, n, x)
  {
    hide Pick, Distinct, Nondecreasing;
    if n > 0 {
      var before := Chosen(own, distribution, spendable, count, draws, n - 1);
      if n > 1 { ShorterBefore(own, distribution, spendable, count, draws, n - 1); }
      ChosenArePicked(own, distribution, spendable, count, draws, n - 1);
      var pick := Pick(distribution, spendable, draws(n - 1));
      forall x: nat ensures Picked(distribution, spendable, draws, n, x) <==>
        Picked(distribution, spendable, draws, n - 1, x) || pick == Some(x)
      {
        if pick == Some(x) { assert Picked(distribution, spendable, draws, n, x); }
      }
    }
  }

  lemma ShorterBefore(own: nat, distribution: seq<nat>, spendable: nat, count: nat, draws: nat -> Draw, n: nat)
    requires spendable < |distribution| && n > 0
    ensures |Chosen(own, distribution, spendable, count, draws, n - 1)|
         <= |Chosen(own, distribution, spendable, count, draws, n)|
  {
    hide Pick, Distinct, Nondecreasing;
  }

  /** The draw with which enough decoys are chosen for the first time. */
  lemma {:induction false} FirstFull(own: nat, distribution: seq<nat>, spendable: nat, count: nat, draws: nat -> Draw,
                                     n: nat) returns (m: nat)
    requires spendable < |distribution| && |Chosen(own, distribution, spendable, count, draws, n)| == count
    ensures m <= n && |Chosen(own, distribution, spendable, count, draws, m)| == count
    ensures m > 0 ==> |Chosen(own, distribution, spendable, count, draws, m - 1)| < count
  {
    hide Pick, Distinct, Nondecreasing, Chosen;
    if n > 0 && |Chosen(own, distribution, spendable, count, draws, n - 1)| == count {
      m := FirstFull(own, distribution, spendable, count, draws, n - 1);
    } else {
      m := n;
    }
  }

  /** The position of the real output in the sorted ring. */
  function PositionOf(x: int, s: seq<int>): (r: nat)
    requires x in s
    ensures r < |s| && s[r] == x
  {
    if s[0] == x then 0 else PositionOf(x, s[1..]) + 1
  }

  function Guard(distribution: seq<nat>, ringSize: nat, window: nat): Option<SelectError> {
    if window == 0 then Some(ZeroWindow)
    else if |distribution| <= window then Some(DistributionTooShort)
    else if ringSize < 2 then Some(RingTooSmall)
    else if distribution[|distribution| - window] < ringSize then Some(NotEnoughOutputs)
    else if RecentOutputs(distribution) == 0 then Some(NoOutputsPerSecond)
    else None
  }

  function Select(own: nat, distribution: seq<nat>, ringSize: nat, window: nat, draws: nat -> Draw)
    : Result<Selection, SelectError>
  {
    var guard := Guard(distribution, ringSize, window);
    if guard.Some? then Err(guard.value)
    else
      var chosen := Chosen(own, distribution, |distribution| - window, ringSize - 1, draws, MAX_ITERATIONS);
      if |chosen| < ringSize - 1 then Err(TooManyIterations)
      else
        var ring := Sort(chosen + [own]);
        Ok(Selection(ring, PositionOf(own, ring) % 0x100))
  }

  lemma {:induction false} ChosenStays(own: nat, distribution: seq<nat>, spendable: nat, count: nat, draws: nat -> Draw,
                                       m: nat, n: nat)
    requires spendable < |distribution| && m <= n
    requires |Chosen(own, distribution, spendable, count, draws, m)| == count
    ensures Chosen(own, distribution, spendable, count, draws, n)
         == Chosen(own, distribution, spendable, count, draws, m)
  {
    hide Pick, Distinct;
    if m < n {
      ChosenStays(own, distribution, spendable, count, draws, m, n - 1);
    }
  }

  /** The selection loop. It looks at no more than 1000 draws. */
  method SelectDecoys(own: nat, distribution: seq<nat>, ringSize: nat, window: nat, draws: nat -> Draw)
    returns (r: Result<Selection, SelectError>, used: nat)
    ensures r == Select(own, distribution, ringSize, window, draws)
    ensures used <= MAX_ITERATIONS
  {
    hide Pick, Sort, Distinct, RecentOutputs, PositionOf;
    used := 0;
    if window == 0 { r := Err(ZeroWindow); return; }
    if |distribution| <= window { r := Err(DistributionTooShort); return; }
    if ringSize < 2 { r := Err(RingTooSmall); return; }
    var decoyCount := ringSize - 1;
    var spendable := |distribution| - window;
    var bound := distribution[spendable];
    if bound < ringSize { r := Err(NotEnoughOutputs); return; }
    if RecentOutputs(distribution) == 0 { r := Err(NoOutputsPerSecond); return; }
    var doNotSelect := {own};
    var candidates: seq<nat> := [];
    var iterations := 0;
    while |candidates| < decoyCount
      invariant iterations <= MAX_ITERATIONS && used <= iterations
      invariant candidates == Chosen(own, distribution, spendable, decoyCount, draws, iterations)
      invariant forall x :: x in doNotSelect <==> x == own || x in candidates
      decreases MAX_ITERATIONS - iterations
    {
      iterations := iterations + 1;
      if iterations > MAX_ITERATIONS { r := Err(TooManyIterations); return; }
      used := iterations;
      var selected := Pick(distribution, spendable, draws(iterations - 1));
      if selected.None? { continue; }
      if selected.value in doNotSelect { continue; }
      candidates := candidates + [selected.value];
      doNotSelect := doNotSelect + {selected.value};
    }
    ChosenStays(own, distribution, spendable, decoyCount, draws, iterations, MAX_ITERATIONS);
    var ring := Sort(candidates + [own]);
    r := Ok(Selection(ring, PositionOf(own, ring) % 0x100));
  }

  /** A selected ring has exactly the asked size, ascends strictly, and holds the real output; when the
      counts are nondecreasing it otherwise holds only outputs of the unlocked region. */
  lemma SelectionIsARing(own: nat, distribution: seq<nat>, ringSize: nat, window: nat, draws: nat -> Draw)
    requires Select(own, distribution, ringSize, window, draws).Ok?
    ensures var s := Select(own, distribution, ringSize, window, draws).value;
            && 1 <= window < |distribution| && 2 <= ringSize == |s.indices|
            && StrictlyAscending(s.indices)
            && own in s.indices
            && (Nondecreasing(distribution) ==>
                  forall x :: x in s.indices && x != own ==> x < distribution[|distribution| - window])
  {
    hide Pick, Sort, Nondecreasing;
    var chosen := Chosen(own, distribution, |distribution| - window, ringSize - 1, draws, MAX_ITERATIONS);
    assert Distinct(chosen + [own]);
    SortStrictExactlyWhenDistinct(chosen + [own]);
    forall x | x in Sort(chosen + [own]) && x != own ensures x in chosen {
      assert x in chosen + [own];
    }
  }

  /** The decoys of a selection are exactly the outputs, other than the real one, that the draws up to some
      number of at most 1000 pick: no other output enters, and none that is picked is passed over. */
  lemma DecoysArePicked(own: nat, distribution: seq<nat>, ringSize: nat, window: nat, draws: nat -> Draw)
    returns (n: nat)
    requires Select(own, distribution, ringSize, window, draws).Ok?
    ensures n <= 1000 && 1 <= window < |distribution|
    ensures var s := Select(own, distribution, ringSize, window, draws).value;
      forall x: nat :: x != own ==>
        (x in s.indices <==> Picked(distribution, |distribution| - window, draws, n, x))
  {
    hide Pick, Sort, Nondecreasing, Distinct, Chosen, Picked, PositionOf, RecentOutputs;
    var spendable, count := |distribution| - window, ringSize - 1;
    var chosen := Chosen(own, distribution, spendable, count, draws, MAX_ITERATIONS);
    n := FirstFull(own, distribution, spendable, count, draws, MAX_ITERATIONS);
    ChosenStays(own, distribution, spendable, count, draws, n, MAX_ITERATIONS);
    ChosenArePicked(own, distribution, spendable, count, draws, n);
    forall x: nat | x != own
      ensures x in Sort(chosen + [own]) <==> Picked(distribution, spendable, draws, n, x)
    {
      assert x in multiset(chosen + [own]) <==> x in chosen;
    }
  }

  /** What the selection demands before it draws: a window of at least one block and more blocks than that,
      two members or more, as many unlocked outputs, and an output in the last 262800 blocks. */
  lemma GuardPassesExactly(distribution: seq<nat>, ringSize: nat, window: nat)
    ensures Guard(distribution, ringSize, window).None? <==>
      && 1 <= window < |distribution| && 2 <= ringSize <= distribution[|distribution| - window]
      && var n := |distribution|;
      && distribution[if n <= 262_801 then 0 else n - 262_801] < distribution[n - 1]
  {
  }

  /** The reported position is where the real output stands in every ring of at most 256 members, and
      in any ring exactly when its place fits in a byte. */
  lemma RealIndexIsRight(own: nat, distribution: seq<nat>, ringSize: nat, window: nat, draws: nat -> Draw)
    requires Select(own, distribution, ringSize, window, draws).Ok?
    ensures var s := Select(own, distribution, ringSize, window, draws).value;
            && s.realIndexInRing < |s.indices|
            && (s.indices[s.realIndexInRing] == own <==> PositionOf(own, s.indices) < 0x100)
            && (ringSize <= 0x100 ==> s.indices[s.realIndexInRing] == own)
  {
    SelectionIsARing(own, distribution, ringSize, window, draws);
    hide Select, Chosen, PositionOf, Distinct, Nondecreasing, StrictlyAscending, Sort;
    var s := Select(own, distribution, ringSize, window, draws).value;
    RealIndexIsPosition(own, distribution, ringSize, window, draws);
    var at := PositionOf(own, s.indices);
    ByteOfPosition(at);
    assert s.realIndexInRing == at % 0x100 && at < |s.indices| && s.indices[at] == own;
    if s.realIndexInRing < at {
      StrictEntriesDiffer(s.indices, s.realIndexInRing, at);
    }
  }

  lemma ByteOfPosition(at: nat)
    ensures at % 0x100 <= at && (at % 0x100 == at <==> at < 0x100)
  {
  }

  lemma StrictEntriesDiffer(s: seq<int>, i: nat, j: nat)
    requires StrictlyAscending(s) && i < j < |s|
    ensures s[i] < s[j]
  {
  }

  lemma RealIndexIsPosition(own: nat, distribution: seq<nat>, ringSize: nat, window: nat, draws: nat -> Draw)
    requires Select(own, distribution, ringSize, window, draws).Ok?
    ensures var s := Select(own, distribution, ringSize, window, draws).value;
            own in s.indices && s.realIndexInRing == PositionOf(own, s.indices) % 0x100
  {
    hide Chosen, Sort, PositionOf;
  }

  // ----- for which ring sizes the reported position is right -----

  /** The selection, if any, reports the position of the real output. */
  predicate Reports(own: nat, distribution: seq<nat>, ringSize: nat, window: nat, draws: nat -> Draw) {
    var r := Select(own, distribution, ringSize, window, draws);
    r.Ok? ==> r.value.realIndexInRing < |r.value.indices| && r.value.indices[r.value.realIndexInRing] == own
  }

  ghost predicate AlwaysReports(ringSize: nat) {
    forall own, distribution, window, draws :: Reports(own, distribution, ringSize, window, draws)
  }

  /** The draws that pick the outputs 0, 1, 2, ... of one block. */
  function InTurn(k: nat): Draw { Draw(0, k, 0) }

  lemma PickInTurn(size: nat, k: nat)
    requires 1 < size && k < size
    ensures Pick([0, size], 1, InTurn(k)) == Some(k)
  {
    hide PartitionPoint;
    var counts: seq<nat> := [0, size];
    assert counts[0] == 0 && counts[1] == size;
    assert PartitionPoint(counts, size - 1) == 1;
  }

  function UpTo(n: nat): (r: seq<nat>)
    ensures |r| == n && forall i :: 0 <= i < n ==> r[i] == i
  {
    seq(n, i requires 0 <= i < n => i)
  }

  lemma {:induction false} ChosenInTurn(size: nat, n: nat)
    requires size > 1
    ensures Chosen(size, [0, size], 1, size - 1, InTurn, n) == UpTo(if n < size then n else size - 1)
  {
    hide Pick, UpTo;
    if n > 0 {
      ChosenInTurn(size, n - 1);
      if n < size {
        PickInTurn(size, n - 1);
      }
    }
  }

  /** One block of `size` outputs, all picked in turn, and a real output after them: the ring is
      0, 1, ..., size - 2 and the real output, whose place the reported byte wraps around. */
  lemma LargeRingMisreports(size: nat)
    requires 257 <= size <= 1001
    ensures var r := Select(size, [0, size], size, 1, InTurn);
      && r.Ok? && r.value.indices == UpTo(size - 1) + [size]
      && r.value.realIndexInRing == (size - 1) % 0x100
    ensures !Reports(size, [0, size], size, 1, InTurn)
  {
    hide Chosen, UpTo, PositionOf, Sort;
    ChosenInTurn(size, MAX_ITERATIONS);
    var ring: seq<int> := UpTo(size - 1) + [size];
    assert Ascending(ring);
    SortOfAscending(ring);
    OneBlockCounts(size);
    PositionOfStrict(ring, size - 1);
  }

  lemma OneBlockCounts(size: nat)
    ensures RecentOutputs([0, size]) == size
  {
  }

  lemma PositionOfStrict(s: seq<int>, i: nat)
    requires StrictlyAscending(s) && i < |s|
    ensures PositionOf(s[i], s) == i
  {
    hide PositionOf;
    var at := PositionOf(s[i], s);
    assert s[at] == s[i];
  }

  /** With 257 members and a real output after 256 decoys, the position reported is 0. */
  lemma RealIndexCanBeWrong()
    ensures var r := Select(257, [0, 257], 257, 1, InTurn);
      r.Ok? && r.value.realIndexInRing == 0 && r.value.indices == UpTo(256) + [257]
  {
    hide Select, UpTo;
    LargeRingMisreports(257);
  }

  /** The position reported is right for every input if and only if the ring size asked for is at most
      256, or so large that the iteration limit lets no selection succeed. */
  lemma RealIndexIsRightExactly(ringSize: nat)
    ensures AlwaysReports(ringSize) <==> ringSize <= 256 || ringSize > 1001
  {
    hide Select;
    if ringSize <= 256 || ringSize > 1001 {
      forall own, distribution, window, draws ensures Reports(own, distribution, ringSize, window, draws) {
        if Select(own, distribution, ringSize, window, draws).Ok? {
          RealIndexIsRight(own, distribution, ringSize, window, draws);
          SelectionIsShort(own, distribution, ringSize, window, draws);
        }
      }
    } else {
      LargeRingMisreports(ringSize);
    }
  }

  lemma SelectionIsShort(own: nat, distribution: seq<nat>, ringSize: nat, window: nat, draws: nat -> Draw)
    requires Select(own, distribution, ringSize, window, draws).Ok?
    ensures ringSize <= 1001
  {
    hide Chosen, Sort, PositionOf;
  }

  /** On a selected ring the sort inside the offset encoder does nothing, so offset i belongs to
      ring member i. */
  lemma OffsetsFollowRingOrder(own: nat, distribution: seq<nat>, ringSize: nat, window: nat, draws: nat -> Draw,
                               relative: seq<int>)
    requires Select(own, distribution, ringSize, window, draws).Ok?
    requires Differences(relative, Sort(Select(own, distribution, ringSize, window, draws).value.indices))
    ensures Differences(relative, Select(own, distribution, ringSize, window, draws).value.indices)
    ensures Distinct(Select(own, distribution, ringSize, window, draws).value.indices)
  {
    SelectionIsARing(own, distribution, ringSize, window, draws);
    hide Select, Chosen;
    SortOfAscending(Select(own, distribution, ringSize, window, draws).value.indices);
  }
}
