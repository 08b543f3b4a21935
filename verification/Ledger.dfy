/** The pre-signed transaction graph run as a ledger: blocks are mined, and a transaction of the
    graph confirms when its input is unspent and its relative lock is met (BIP 68). */
module Ledger {
  import opened Wrappers
  import opened Bitcoin
  import opened Presign
  import opened Refund

  /** Every transaction that can move the lock output: the signed templates, Alice's redeem and
      Bob's full refund. The last two are absent when their own guards refuse them. */
  datatype Graph = Graph(
    rq: Request,
    lock: Lock,
    cancel: Tx,
    punish: Tx,
    early: Tx,
    redeem: Option<Tx>,
    fullRefund: Option<Tx>,
    amnesty: Option<Amnesty>,
    refundScript: Bytes
  )

  function GraphOf(lib: Lib, rq: Request): Graph
    requires BuildTemplates(lib, rq).Ok?
  {
    AcceptsExactly(lib, rq);
    var t := BuildTemplates(lib, rq).value;
    var redeem := RedeemTemplate(lib, rq.txLock, rq.params, lib.publicKey(rq.bHex).value, rq.network, DEFAULT_POLICY);
    var full := FullRefundOf(lib, t.cancel, rq.refundAddress, rq.params.refundFee, rq.network);
    Graph(rq, t.lock, t.cancel, t.punish, t.earlyRefund,
          if redeem.Ok? then Some(redeem.value.1) else None,
          if full.Ok? then Some(full.value.tx) else None,
          t.amnesty, lib.outputScript(rq.refundAddress, rq.network).value)
  }

  predicate Candidate(g: Graph, tx: Tx) {
    || tx == g.cancel || tx == g.punish || tx == g.early
    || g.redeem == Some(tx) || g.fullRefund == Some(tx)
    || (g.amnesty.Some? && (tx == g.amnesty.value.partialRefund || tx == g.amnesty.value.reclaim
                            || tx == g.amnesty.value.withhold || tx == g.amnesty.value.mercy))
  }

  datatype Coin = Coin(at: OutPoint, out: TxOut, height: nat)
  datatype Entry = Entry(tx: Tx, height: nat)

  /** `height` is the block being filled; `chain` lists what has confirmed, oldest first. */
  datatype Ledger = Ledger(height: nat, coins: seq<Coin>, chain: seq<Entry>, fees: int)

  datatype Action = Mine | Confirm(tx: Tx)

  /** BIP 68: only version 2 has relative locks; bit 31 disables the lock, bit 22 selects time units (never
      used by the graph, and taken here as not yet met), otherwise the low 16 bits count blocks. */
  predicate SequenceMet(version: nat, sequence: nat, coinHeight: nat, height: nat) {
    || version < 2
    || sequence / 0x8000_0000 % 2 == 1
    || (sequence / 0x40_0000 % 2 == 0 && height >= coinHeight + sequence % 0x1_0000)
  }

  /** A block count of the graph is met after that many blocks. */
  lemma BlocksAreMet(sequence: nat, coinHeight: nat, height: nat)
    requires sequence < 0x1_0000
    ensures SequenceMet(2, sequence, coinHeight, height) <==> height >= coinHeight + sequence
  {
  }

  function CoinIndex(coins: seq<Coin>, at: OutPoint): (r: Option<nat>)
    ensures r.Some? ==> r.value < |coins| && coins[r.value].at == at
  {
    if coins == [] then None
    else if coins[0].at == at then Some(0)
    else
      var rest := CoinIndex(coins[1..], at);
      if rest.None? then None else Some(rest.value + 1)
  }

  function NewCoins(txid: string, outs: seq<TxOut>, height: nat): seq<Coin> {
    seq(|outs|, i requires 0 <= i < |outs| => Coin(OutPoint(txid, i), outs[i], height))
  }

  function OutSum(outs: seq<TxOut>): int {
    if outs == [] then 0 else outs[0].value + OutSum(outs[1..])
  }

  function Total(coins: seq<Coin>): int {
    if coins == [] then 0 else coins[0].out.value + Total(coins[1..])
  }

  /** What the coins paying one script are worth together. */
  function PaidTo(coins: seq<Coin>, script: Bytes): int {
    if coins == [] then 0
    else (if coins[0].out.script == script then coins[0].out.value else 0) + PaidTo(coins[1..], script)
  }

  function PaidElsewhere(coins: seq<Coin>, script: Bytes): int {
    if coins == [] then 0
    else (if coins[0].out.script != script then coins[0].out.value else 0) + PaidElsewhere(coins[1..], script)
  }

  function Genesis(g: Graph, height: nat): Ledger {
    Ledger(height, [Coin(OutPoint(g.lock.txid, g.lock.vout), TxOut(g.lock.p2wsh, g.lock.value), height)], [], 0)
  }

  predicate Enabled(g: Graph, l: Ledger, tx: Tx) {
    && Candidate(g, tx)
    && |tx.ins| == 1
    && CoinIndex(l.coins, tx.ins[0].prev).Some?
    && SequenceMet(tx.version, tx.ins[0].sequence, l.coins[CoinIndex(l.coins, tx.ins[0].prev).value].height, l.height)
  }

  function Step(lib: Lib, g: Graph, l: Ledger, a: Action): Ledger {
    match a
    case Mine => l.(height := l.height + 1)
    case Confirm(tx) =>
      if !Enabled(g, l, tx) then l
      else
        var k := CoinIndex(l.coins, tx.ins[0].prev).value;
        Ledger(l.height,
               l.coins[..k] + l.coins[k + 1..] + NewCoins(lib.txid(tx), tx.outs, l.height),
               l.chain + [Entry(tx, l.height)],
               l.fees + l.coins[k].out.value - OutSum(tx.outs))
  }

  /** The ledger after any sequence of attempted actions; an action that is not enabled does nothing. */
  function Play(lib: Lib, g: Graph, start: nat, actions: seq<Action>): Ledger {
    if actions == [] then Genesis(g, start)
    else Step(lib, g, Play(lib, g, start, actions[..|actions| - 1]), actions[|actions| - 1])
  }

  /** The graph of an accepted request under an injective txid, in which the lock transaction is
      none of its own descendants. */
  ghost predicate Sound(lib: Lib, g: Graph) {
    && BuildTemplates(lib, g.rq).Ok? && g == GraphOf(lib, g.rq)
    && g.rq.policy == DEFAULT_POLICY
    && TxidInjective(lib)
    && forall tx :: Candidate(g, tx) ==> lib.txid(tx) != g.lock.txid
  }

  // ----- the only ways a run can unfold -----

  /** Which transactions have confirmed, with the heights at which they did. */
  datatype Story =
    | Locked
    | EarlyRefunded(at: nat)
    | Redeemed(at: nat)
    | Cancelled(cancelAt: nat)
    | Punished(cancelAt: nat, at: nat)
    | FullyRefunded(cancelAt: nat, at: nat)
    | PartlyRefunded(cancelAt: nat, partialAt: nat)
    | Reclaimed(cancelAt: nat, partialAt: nat, at: nat)
    | Withheld(cancelAt: nat, partialAt: nat, at: nat)
    | Mercy(cancelAt: nat, partialAt: nat, withheldAt: nat, at: nat)

  predicate Possible(g: Graph, start: nat, s: Story, height: nat) {
    var p := g.rq.params;
    match s
    case Locked => start <= height
    case EarlyRefunded(at) => start <= at <= height
    case Redeemed(at) => g.redeem.Some? && start <= at <= height
    case Cancelled(c) => start + p.cancelTimelock <= c <= height
    case Punished(c, at) => start + p.cancelTimelock <= c && c + p.punishTimelock <= at <= height
    case FullyRefunded(c, at) => g.fullRefund.Some? && start + p.cancelTimelock <= c <= at <= height
    case PartlyRefunded(c, pr) => g.amnesty.Some? && start + p.cancelTimelock <= c <= pr <= height
    case Reclaimed(c, pr, at) =>
      && g.amnesty.Some? && p.remainingRefundTimelock.Some?
      && start + p.cancelTimelock <= c <= pr && pr + p.remainingRefundTimelock.value <= at <= height
    case Withheld(c, pr, at) => g.amnesty.Some? && start + p.cancelTimelock <= c <= pr <= at <= height
    case Mercy(c, pr, w, at) => g.amnesty.Some? && start + p.cancelTimelock <= c <= pr <= w <= at <= height
  }

  function ChainOf(g: Graph, s: Story): seq<Entry>
    requires s.Redeemed? ==> g.redeem.Some?
    requires s.FullyRefunded? ==> g.fullRefund.Some?
    requires s.PartlyRefunded? || s.Reclaimed? || s.Withheld? || s.Mercy? ==> g.amnesty.Some?
  {
    match s
    case Locked => []
    case EarlyRefunded(at) => [Entry(g.early, at)]
    case Redeemed(at) => [Entry(g.redeem.value, at)]
    case Cancelled(c) => [Entry(g.cancel, c)]
    case Punished(c, at) => [Entry(g.cancel, c), Entry(g.punish, at)]
    case FullyRefunded(c, at) => [Entry(g.cancel, c), Entry(g.fullRefund.value, at)]
    case PartlyRefunded(c, pr) => [Entry(g.cancel, c), Entry(g.amnesty.value.partialRefund, pr)]
    case Reclaimed(c, pr, at) =>
      [Entry(g.cancel, c), Entry(g.amnesty.value.partialRefund, pr), Entry(g.amnesty.value.reclaim, at)]
    case Withheld(c, pr, at) =>
      [Entry(g.cancel, c), Entry(g.amnesty.value.partialRefund, pr), Entry(g.amnesty.value.withhold, at)]
    case Mercy(c, pr, w, at) =>
      [Entry(g.cancel, c), Entry(g.amnesty.value.partialRefund, pr), Entry(g.amnesty.value.withhold, w),
       Entry(g.amnesty.value.mercy, at)]
  }

  function CoinAt(lib: Lib, tx: Tx, vout: nat, height: nat): Coin
    requires vout < |tx.outs|
  {
    Coin(OutPoint(lib.txid(tx), vout), tx.outs[vout], height)
  }

  /** One input, one output of the given value. */
  predicate Moves(tx: Tx, prev: OutPoint, sequence: nat, value: int) {
    && tx.version == 2 && tx.locktime == 0 && tx.ins == [TxIn(prev, sequence)]
    && |tx.outs| == 1 && tx.outs[0].value == value
  }

  function LockAt(g: Graph): OutPoint { OutPoint(g.lock.txid, g.lock.vout) }
  function CancelAt(lib: Lib, g: Graph): OutPoint { OutPoint(lib.txid(g.cancel), 0) }
  function AmnestyAt(lib: Lib, am: Amnesty): OutPoint { OutPoint(lib.txid(am.partialRefund), 1) }
  function WithholdAt(lib: Lib, am: Amnesty): OutPoint { OutPoint(lib.txid(am.withhold), 0) }

  /** What each transaction of the graph spends, when, and for how much. */
  ghost predicate WellBuilt(lib: Lib, g: Graph) {
    var p, v := g.rq.params, g.lock.value;
    && 5 <= p.cancelTimelock <= 288 && 5 <= p.punishTimelock <= 288
    && 154 <= p.cancelFee <= 77_000 && 154 <= p.punishFee <= 77_000 && 154 <= p.refundFee <= 77_000
    && Moves(g.cancel, LockAt(g), p.cancelTimelock, v - p.cancelFee)
    && Moves(g.punish, CancelAt(lib, g), p.punishTimelock, v - p.cancelFee - p.punishFee)
    && Moves(g.early, LockAt(g), SEQUENCE_FINAL, v - p.refundFee)
    && g.early.outs[0].script == g.refundScript
    && (g.redeem.Some? ==>
          154 <= p.redeemFee <= 77_000 && Moves(g.redeem.value, LockAt(g), SEQUENCE_FINAL, v - p.redeemFee))
    && (g.fullRefund.Some? ==>
          && Moves(g.fullRefund.value, CancelAt(lib, g), SEQUENCE_FINAL, v - p.cancelFee - p.refundFee)
          && g.fullRefund.value.outs[0].script == g.refundScript)
    && (g.amnesty.Some? <==> HasAmnesty(p))
    && (g.amnesty.Some? ==> WellBuiltAmnesty(lib, g, g.amnesty.value))
  }

  ghost predicate WellBuiltAmnesty(lib: Lib, g: Graph, am: Amnesty)
    requires HasAmnesty(g.rq.params)
  {
    var p, v, amnesty := g.rq.params, g.lock.value, AmnestyAmount(g.rq.params);
    var partial := am.partialRefund;
    && 1 <= p.remainingRefundTimelock.value <= 288
    && 187 <= p.partialRefundFee.value <= 93_500 && 154 <= p.reclaimFee.value <= 77_000
    && 154 <= p.withholdFee.value <= 77_000 && 154 <= p.mercyFee.value <= 77_000
    && partial.version == 2 && partial.locktime == 0
    && partial.ins == [TxIn(CancelAt(lib, g), SEQUENCE_FINAL)] && |partial.outs| == 2
    && partial.outs[0] == TxOut(g.refundScript, v - p.cancelFee - amnesty - p.partialRefundFee.value)
    && partial.outs[1] == TxOut(g.lock.p2wsh, amnesty)
    && Moves(am.reclaim, AmnestyAt(lib, am), p.remainingRefundTimelock.value, amnesty - p.reclaimFee.value)
    && am.reclaim.outs[0].script == g.refundScript
    && Moves(am.withhold, AmnestyAt(lib, am), SEQUENCE_FINAL, amnesty - p.withholdFee.value)
    && Moves(am.mercy, WithholdAt(lib, am), SEQUENCE_FINAL, amnesty - p.withholdFee.value - p.mercyFee.value)
    && am.mercy.outs[0].script == g.refundScript
  }

  lemma GraphIsWellBuilt(lib: Lib, g: Graph)
    requires BuildTemplates(lib, g.rq).Ok? && g == GraphOf(lib, g.rq) && g.rq.policy == DEFAULT_POLICY
    ensures WellBuilt(lib, g)
  {
    AcceptsExactly(lib, g.rq);
    if HasAmnesty(g.rq.params) {
      AmnestyAcceptsExactly(lib, g.rq, g.lock, g.cancel);
    }
  }

  /** The digest Bob's encrypted signature is made over is that of the redeem transaction of the graph. */
  lemma DigestIsOfRedeem(lib: Lib, g: Graph, digest: string)
    requires BuildTemplates(lib, g.rq).Ok? && g == GraphOf(lib, g.rq)
    ensures var b := lib.publicKey(g.rq.bHex);
      && b.Some?
      && (RedeemDigest(lib, g.rq.txLock, g.rq.params, b.value, g.rq.network) == Ok(digest) <==>
            g.redeem.Some? && digest == lib.sighash(g.redeem.value, 0, g.lock.script, g.lock.value))
      && (g.redeem.Some? ==> IsRedeemTx(lib, g.rq.txLock, g.lock.vout, g.rq.params, g.rq.network, g.redeem.value))
  {
    AcceptsExactly(lib, g.rq);
  }

  /** Outputs that the graph spends belong to four different transactions, so an outpoint names
      one output and no end payment can be mistaken for an output that is still locked. */
  ghost predicate Separate(lib: Lib, g: Graph) {
    var c := lib.txid(g.cancel);
    && c != g.lock.txid
    && (forall leaf | leaf in {g.punish, g.early} :: lib.txid(leaf) != g.lock.txid && lib.txid(leaf) != c)
    && (g.redeem.Some? ==> lib.txid(g.redeem.value) != g.lock.txid && lib.txid(g.redeem.value) != c)
    && (g.fullRefund.Some? ==> lib.txid(g.fullRefund.value) != g.lock.txid && lib.txid(g.fullRefund.value) != c)
    && (g.amnesty.Some? ==> SeparateAmnesty(lib, g, g.amnesty.value))
  }

  ghost predicate SeparateAmnesty(lib: Lib, g: Graph, am: Amnesty) {
    var l, c, p, w := g.lock.txid, lib.txid(g.cancel), lib.txid(am.partialRefund), lib.txid(am.withhold);
    && p != l && p != c && w != l && w != c && w != p
    && (forall leaf | leaf in {am.reclaim, am.mercy} ::
          lib.txid(leaf) != l && lib.txid(leaf) != c && lib.txid(leaf) != p && lib.txid(leaf) != w)
    && (forall leaf | leaf in {g.punish, g.early} :: lib.txid(leaf) != p && lib.txid(leaf) != w)
    && (g.redeem.Some? ==> lib.txid(g.redeem.value) != p && lib.txid(g.redeem.value) != w)
    && (g.fullRefund.Some? ==> lib.txid(g.fullRefund.value) != p && lib.txid(g.fullRefund.value) != w)
  }

  lemma TransactionsAreSeparate(lib: Lib, g: Graph)
    requires Sound(lib, g) && WellBuilt(lib, g)
    ensures Separate(lib, g)
  {
    assert Candidate(g, g.cancel) && Candidate(g, g.punish) && Candidate(g, g.early);
    assert g.punish.ins[0].sequence != SEQUENCE_FINAL && g.cancel.ins[0].sequence != SEQUENCE_FINAL;
    if g.amnesty.Some? {
      var am := g.amnesty.value;
      assert Candidate(g, am.partialRefund) && Candidate(g, am.reclaim);
      assert Candidate(g, am.withhold) && Candidate(g, am.mercy);
      assert am.reclaim.ins[0].sequence != SEQUENCE_FINAL;
      assert am.withhold != am.partialRefund;
      assert am.withhold != g.cancel;
      assert am.mercy != am.partialRefund && am.mercy != g.cancel;
    }
  }

  // ----- a run follows its story -----

  predicate Told(g: Graph, s: Story) {
    && (s.Redeemed? ==> g.redeem.Some?)
    && (s.FullyRefunded? ==> g.fullRefund.Some?)
    && (s.PartlyRefunded? || s.Reclaimed? || s.Withheld? || s.Mercy? ==> g.amnesty.Some?)
  }

  ghost function CoinsOf(lib: Lib, g: Graph, start: nat, s: Story): seq<Coin>
    requires WellBuilt(lib, g) && Told(g, s)
  {
    match s
    case Locked => Genesis(g, start).coins
    case EarlyRefunded(at) => [CoinAt(lib, g.early, 0, at)]
    case Redeemed(at) => [CoinAt(lib, g.redeem.value, 0, at)]
    case Cancelled(c) => [CoinAt(lib, g.cancel, 0, c)]
    case Punished(c, at) => [CoinAt(lib, g.punish, 0, at)]
    case FullyRefunded(c, at) => [CoinAt(lib, g.fullRefund.value, 0, at)]
    case PartlyRefunded(c, pr) =>
      [CoinAt(lib, g.amnesty.value.partialRefund, 0, pr), CoinAt(lib, g.amnesty.value.partialRefund, 1, pr)]
    case Reclaimed(c, pr, at) =>
      [CoinAt(lib, g.amnesty.value.partialRefund, 0, pr), CoinAt(lib, g.amnesty.value.reclaim, 0, at)]
    case Withheld(c, pr, at) =>
      [CoinAt(lib, g.amnesty.value.partialRefund, 0, pr), CoinAt(lib, g.amnesty.value.withhold, 0, at)]
    case Mercy(c, pr, w, at) =>
      [CoinAt(lib, g.amnesty.value.partialRefund, 0, pr), CoinAt(lib, g.amnesty.value.mercy, 0, at)]
  }

  /** The declared fees of the transactions a story confirmed. */
  function FeesOf(g: Graph, s: Story): int
    requires Told(g, s)
    requires g.amnesty.Some? ==> HasAmnesty(g.rq.params)
  {
    var p := g.rq.params;
    match s
    case Locked => 0
    case EarlyRefunded(_) => p.refundFee
    case Redeemed(_) => p.redeemFee
    case Cancelled(_) => p.cancelFee
    case Punished(_, _) => p.cancelFee + p.punishFee
    case FullyRefunded(_, _) => p.cancelFee + p.refundFee
    case PartlyRefunded(_, _) => p.cancelFee + p.partialRefundFee.value
    case Reclaimed(_, _, _) => p.cancelFee + p.partialRefundFee.value + p.reclaimFee.value
    case Withheld(_, _, _) => p.cancelFee + p.partialRefundFee.value + p.withholdFee.value
    case Mercy(_, _, _, _) => p.cancelFee + p.partialRefundFee.value + p.withholdFee.value + p.mercyFee.value
  }

  ghost predicate Follows(lib: Lib, g: Graph, start: nat, l: Ledger, s: Story)
    requires WellBuilt(lib, g)
  {
    && Possible(g, start, s, l.height)
    && l.chain == ChainOf(g, s)
    && l.coins == CoinsOf(lib, g, start, s)
    && l.fees == FeesOf(g, s)
  }

  function NextStory(g: Graph, s: Story, tx: Tx, height: nat): Story {
    match s
    case Locked =>
      if tx == g.cancel then Cancelled(height) else if tx == g.early then EarlyRefunded(height) else Redeemed(height)
    case Cancelled(c) =>
      if tx == g.punish then Punished(c, height)
      else if g.fullRefund == Some(tx) then FullyRefunded(c, height)
      else PartlyRefunded(c, height)
    case PartlyRefunded(c, pr) =>
      if g.amnesty.Some? && tx == g.amnesty.value.reclaim then Reclaimed(c, pr, height) else Withheld(c, pr, height)
    case Withheld(c, pr, w) => Mercy(c, pr, w, height)
    case _ => s
  }

  lemma StepFollowsStory(lib: Lib, g: Graph, start: nat, l: Ledger, s: Story, tx: Tx)
    requires WellBuilt(lib, g) && Separate(lib, g) && Follows(lib, g, start, l, s)
    requires Enabled(g, l, tx)
    ensures Follows(lib, g, start, Step(lib, g, l, Confirm(tx)), NextStory(g, s, tx, l.height))
  {
    match s
    case Locked => StepFromLocked(lib, g, start, l, tx);
    case Cancelled(c) => StepFromCancelled(lib, g, start, l, c, tx);
    case PartlyRefunded(c, pr) => StepFromPartlyRefunded(lib, g, start, l, c, pr, tx);
    case Withheld(c, pr, w) => StepFromWithheld(lib, g, start, l, c, pr, w, tx);
    case _ => assert false;
  }

  lemma StepFromLocked(lib: Lib, g: Graph, start: nat, l: Ledger, tx: Tx)
    requires WellBuilt(lib, g) && Separate(lib, g) && Follows(lib, g, start, l, Locked)
    requires Enabled(g, l, tx)
    ensures Follows(lib, g, start, Step(lib, g, l, Confirm(tx)), NextStory(g, Locked, tx, l.height))
  {
    assert tx.ins[0].prev == LockAt(g);
    assert tx == g.cancel || tx == g.early || g.redeem == Some(tx);
    OutSumOfFew(tx.outs);
    assert Step(lib, g, l, Confirm(tx)).coins == [CoinAt(lib, tx, 0, l.height)];
  }

  lemma StepFromCancelled(lib: Lib, g: Graph, start: nat, l: Ledger, c: nat, tx: Tx)
    requires WellBuilt(lib, g) && Separate(lib, g) && Follows(lib, g, start, l, Cancelled(c))
    requires Enabled(g, l, tx)
    ensures Follows(lib, g, start, Step(lib, g, l, Confirm(tx)), NextStory(g, Cancelled(c), tx, l.height))
  {
    assert tx.ins[0].prev == CancelAt(lib, g);
    assert tx == g.punish || g.fullRefund == Some(tx) || (g.amnesty.Some? && tx == g.amnesty.value.partialRefund);
    if tx == g.punish || g.fullRefund == Some(tx) {
      StepEndsCancelled(lib, g, start, l, c, tx);
    } else {
      StepPartlyRefunds(lib, g, start, l, c, tx);
    }
  }

  lemma StepEndsCancelled(lib: Lib, g: Graph, start: nat, l: Ledger, c: nat, tx: Tx)
    requires WellBuilt(lib, g) && Separate(lib, g) && Follows(lib, g, start, l, Cancelled(c))
    requires Enabled(g, l, tx) && (tx == g.punish || g.fullRefund == Some(tx))
    ensures Follows(lib, g, start, Step(lib, g, l, Confirm(tx)), NextStory(g, Cancelled(c), tx, l.height))
  {
    hide Separate, SeparateAmnesty, WellBuiltAmnesty, SequenceMet, Candidate;
    assert tx.ins[0].prev == CancelAt(lib, g);
    BlocksAreMet(g.rq.params.punishTimelock, c, l.height);
    OutSumOfFew(tx.outs);
    assert Step(lib, g, l, Confirm(tx)).coins == [CoinAt(lib, tx, 0, l.height)];
  }

  lemma StepPartlyRefunds(lib: Lib, g: Graph, start: nat, l: Ledger, c: nat, tx: Tx)
    requires WellBuilt(lib, g) && Separate(lib, g) && Follows(lib, g, start, l, Cancelled(c))
    requires Enabled(g, l, tx) && tx != g.punish && g.fullRefund != Some(tx)
    requires g.amnesty.Some? && tx == g.amnesty.value.partialRefund
    ensures Follows(lib, g, start, Step(lib, g, l, Confirm(tx)), NextStory(g, Cancelled(c), tx, l.height))
  {
    hide Separate, SeparateAmnesty;
    assert tx.ins[0].prev == CancelAt(lib, g);
    OutSumOfFew(tx.outs);
    assert Step(lib, g, l, Confirm(tx)).coins == [CoinAt(lib, tx, 0, l.height), CoinAt(lib, tx, 1, l.height)];
  }

  lemma StepFromPartlyRefunded(lib: Lib, g: Graph, start: nat, l: Ledger, c: nat, pr: nat, tx: Tx)
    requires WellBuilt(lib, g) && Separate(lib, g) && Follows(lib, g, start, l, PartlyRefunded(c, pr))
    requires Enabled(g, l, tx)
    ensures Follows(lib, g, start, Step(lib, g, l, Confirm(tx)), NextStory(g, PartlyRefunded(c, pr), tx, l.height))
  {
    assert tx.ins[0].prev == AmnestyAt(lib, g.amnesty.value);
    assert tx == g.amnesty.value.reclaim || tx == g.amnesty.value.withhold;
    OutSumOfFew(tx.outs);
    assert Step(lib, g, l, Confirm(tx)).coins == [l.coins[0], CoinAt(lib, tx, 0, l.height)];
  }

  lemma StepFromWithheld(lib: Lib, g: Graph, start: nat, l: Ledger, c: nat, pr: nat, w: nat, tx: Tx)
    requires WellBuilt(lib, g) && Separate(lib, g) && Follows(lib, g, start, l, Withheld(c, pr, w))
    requires Enabled(g, l, tx)
    ensures Follows(lib, g, start, Step(lib, g, l, Confirm(tx)), NextStory(g, Withheld(c, pr, w), tx, l.height))
  {
    assert tx.ins[0].prev == WithholdAt(lib, g.amnesty.value);
    assert tx == g.amnesty.value.mercy;
    OutSumOfFew(tx.outs);
    assert Step(lib, g, l, Confirm(tx)).coins == [l.coins[0], CoinAt(lib, tx, 0, l.height)];
  }

  lemma OutSumOfFew(outs: seq<TxOut>)
    ensures |outs| == 1 ==> OutSum(outs) == outs[0].value
    ensures |outs| == 2 ==> OutSum(outs) == outs[0].value + outs[1].value
  {
    if |outs| == 2 {
      OutSumOfFew(outs[1..]);
    }
  }

  /** The story a run tells. */
  function StoryOf(lib: Lib, g: Graph, start: nat, actions: seq<Action>): Story {
    if actions == [] then Locked
    else
      var n := |actions| - 1;
      var l, s := Play(lib, g, start, actions[..n]), StoryOf(lib, g, start, actions[..n]);
      match actions[n]
      case Mine => s
      case Confirm(tx) => if Enabled(g, l, tx) then NextStory(g, s, tx, l.height) else s
  }

  lemma {:induction false} RunFollowsStory(lib: Lib, g: Graph, start: nat, actions: seq<Action>)
    requires Sound(lib, g)
    ensures WellBuilt(lib, g)
    ensures Follows(lib, g, start, Play(lib, g, start, actions), StoryOf(lib, g, start, actions))
  {
    GraphIsWellBuilt(lib, g);
    TransactionsAreSeparate(lib, g);
    if actions != [] {
      var n := |actions| - 1;
      RunFollowsStory(lib, g, start, actions[..n]);
      var l, s := Play(lib, g, start, actions[..n]), StoryOf(lib, g, start, actions[..n]);
      match actions[n]
      case Mine =>
      case Confirm(tx) =>
        if Enabled(g, l, tx) {
          StepFollowsStory(lib, g, start, l, s, tx);
        }
    }
  }

  // ----- what every run keeps -----

  lemma TotalSplits(coins: seq<Coin>, script: Bytes)
    ensures Total(coins) == PaidTo(coins, script) + PaidElsewhere(coins, script)
  {
  }

  /** Every reachable ledger accounts for the whole lock: what is still in 2-of-2 outputs, what
      has been paid out, and the miners' fees, which are the fees the parameters declare. */
  lemma LockValueIsConserved(lib: Lib, g: Graph, start: nat, actions: seq<Action>)
    requires Sound(lib, g)
    ensures var l := Play(lib, g, start, actions);
            && PaidTo(l.coins, g.lock.p2wsh) + PaidElsewhere(l.coins, g.lock.p2wsh) + l.fees == g.lock.value
            && 0 <= l.fees
    ensures WellBuilt(lib, g) && Told(g, StoryOf(lib, g, start, actions))
    ensures Play(lib, g, start, actions).fees == FeesOf(g, StoryOf(lib, g, start, actions))
  {
    RunFollowsStory(lib, g, start, actions);
    TotalSplits(Play(lib, g, start, actions).coins, g.lock.p2wsh);
    StoryConserves(lib, g, start, StoryOf(lib, g, start, actions));
  }

  lemma StoryConserves(lib: Lib, g: Graph, start: nat, s: Story)
    requires WellBuilt(lib, g) && Told(g, s)
    ensures Total(CoinsOf(lib, g, start, s)) + FeesOf(g, s) == g.lock.value
    ensures 0 <= FeesOf(g, s)
  {
    TotalOfFew(CoinsOf(lib, g, start, s));
  }

  lemma TotalOfFew(coins: seq<Coin>)
    ensures |coins| == 1 ==> Total(coins) == coins[0].out.value
    ensures |coins| == 2 ==> Total(coins) == coins[0].out.value + coins[1].out.value
  {
    if |coins| == 2 {
      TotalOfFew(coins[1..]);
    }
  }

  ghost predicate SpendsOnce(l: Ledger) {
    && (forall i :: 0 <= i < |l.chain| ==> |l.chain[i].tx.ins| == 1)
    && (forall i, j :: 0 <= i < j < |l.chain| ==> l.chain[i].tx.ins[0].prev != l.chain[j].tx.ins[0].prev)
    && (forall i, k :: 0 <= i < |l.chain| && 0 <= k < |l.coins| ==> l.chain[i].tx.ins[0].prev != l.coins[k].at)
  }

  /** What the i-th transaction of a chain spends: the lock, then TxCancel, the amnesty, the withhold. */
  lemma ChainSpendsDownTheGraph(lib: Lib, g: Graph, s: Story)
    requires WellBuilt(lib, g) && Told(g, s)
    ensures var chain := ChainOf(g, s);
            && |chain| <= 4
            && (|chain| > 0 ==> |chain[0].tx.ins| == 1 && chain[0].tx.ins[0].prev == LockAt(g))
            && (|chain| > 1 ==> |chain[1].tx.ins| == 1 && chain[1].tx.ins[0].prev == CancelAt(lib, g))
            && (|chain| > 2 ==> g.amnesty.Some? && |chain[2].tx.ins| == 1
                                && chain[2].tx.ins[0].prev == AmnestyAt(lib, g.amnesty.value))
            && (|chain| > 3 ==> |chain[3].tx.ins| == 1 && chain[3].tx.ins[0].prev == WithholdAt(lib, g.amnesty.value))
  {
  }

  lemma CoinsAreUnspent(lib: Lib, g: Graph, start: nat, s: Story, k: nat)
    requires WellBuilt(lib, g) && Separate(lib, g) && Told(g, s) && k < |CoinsOf(lib, g, start, s)|
    ensures var at := CoinsOf(lib, g, start, s)[k].at;
            && (!s.Locked? ==> at != LockAt(g))
            && (|ChainOf(g, s)| > 1 ==> at != CancelAt(lib, g))
            && (|ChainOf(g, s)| > 2 ==> at != AmnestyAt(lib, g.amnesty.value))
            && (|ChainOf(g, s)| > 3 ==> at != WithholdAt(lib, g.amnesty.value))
  {
  }

  /** No run spends an outpoint twice, and nothing that was spent is still a coin. */
  lemma NoOutpointSpentTwice(lib: Lib, g: Graph, start: nat, actions: seq<Action>)
    requires Sound(lib, g)
    ensures SpendsOnce(Play(lib, g, start, actions))
  {
    RunFollowsStory(lib, g, start, actions);
    TransactionsAreSeparate(lib, g);
    FollowersSpendOnce(lib, g, start, Play(lib, g, start, actions), StoryOf(lib, g, start, actions));
  }

  lemma FollowersSpendOnce(lib: Lib, g: Graph, start: nat, l: Ledger, s: Story)
    requires WellBuilt(lib, g) && Separate(lib, g) && Follows(lib, g, start, l, s)
    ensures SpendsOnce(l)
  {
    hide ChainOf, CoinsOf, FeesOf, WellBuilt, WellBuiltAmnesty;
    ChainSpendsDownTheGraph(lib, g, s);
    assert s.Locked? ==> |l.chain| == 0 by { NothingConfirmedYet(g); }
    forall i, k | 0 <= i < |l.chain| && 0 <= k < |l.coins|
      ensures l.chain[i].tx.ins[0].prev != l.coins[k].at
    {
      CoinsAreUnspent(lib, g, start, s, k);
    }
  }

  lemma NothingConfirmedYet(g: Graph)
    ensures ChainOf(g, Locked) == []
  {
  }

  /** A transaction of the graph other than TxCancel, TxEarlyRefund and TxRedeem tells the story
      it is in. */
  lemma ChainTellsStory(lib: Lib, g: Graph, s: Story, i: nat)
    requires WellBuilt(lib, g) && Separate(lib, g) && Told(g, s) && i < |ChainOf(g, s)|
    ensures var tx := ChainOf(g, s)[i].tx;
            && (tx == g.punish ==> s.Punished? && i == 1)
            && (tx == g.cancel ==> !s.Locked? && !s.EarlyRefunded? && !s.Redeemed? && i == 0)
            && (g.fullRefund == Some(tx) ==> s.FullyRefunded?)
            && (g.amnesty.Some? && tx == g.amnesty.value.reclaim ==> s.Reclaimed? && i == 2)
            && (g.amnesty.Some? && tx == g.amnesty.value.mercy ==> s.Mercy?)
  {
    assert g.punish.ins[0].sequence != SEQUENCE_FINAL && g.cancel.ins[0].sequence != SEQUENCE_FINAL;
    ChainSpendsDownTheGraph(lib, g, s);
    if g.amnesty.Some? {
      assert g.amnesty.value.reclaim.ins[0].sequence != SEQUENCE_FINAL;
    }
  }

  /** Alice's punish never confirms earlier than five blocks after TxCancel, TxCancel never
      before its own lock, and Bob's reclaim never before the remaining-refund lock. */
  lemma TimelocksAreKept(lib: Lib, g: Graph, start: nat, actions: seq<Action>, i: nat)
    requires Sound(lib, g)
    requires i < |Play(lib, g, start, actions).chain|
    ensures var chain, p := Play(lib, g, start, actions).chain, g.rq.params;
            && (chain[i].tx == g.cancel ==> chain[i].height >= start + p.cancelTimelock)
            && (chain[i].tx == g.punish ==>
                  i > 0 && chain[0].tx == g.cancel && p.punishTimelock >= 5
                  && chain[i].height >= chain[0].height + p.punishTimelock)
            && (g.amnesty.Some? && chain[i].tx == g.amnesty.value.reclaim ==>
                  && i > 1 && chain[1].tx == g.amnesty.value.partialRefund
                  && p.remainingRefundTimelock.Some? && p.remainingRefundTimelock.value >= 1
                  && chain[i].height >= chain[1].height + p.remainingRefundTimelock.value)
  {
    RunFollowsStory(lib, g, start, actions);
    TransactionsAreSeparate(lib, g);
    ChainTellsStory(lib, g, StoryOf(lib, g, start, actions), i);
  }

  /** What Bob holds in the end: at least the lock less 154000 sats on a full refund, less 247500
      on partial refund and reclaim, less 324500 on partial refund, withhold and mercy. */
  lemma BobIsMadeWhole(lib: Lib, g: Graph, start: nat, actions: seq<Action>, i: nat)
    requires Sound(lib, g)
    requires i < |Play(lib, g, start, actions).chain|
    ensures var l, v := Play(lib, g, start, actions), g.lock.value;
            var tx, paid := l.chain[i].tx, PaidTo(l.coins, g.refundScript);
            && (g.fullRefund == Some(tx) ==> paid >= v - 154_000)
            && (g.amnesty.Some? && tx == g.amnesty.value.reclaim ==> paid >= v - 247_500)
            && (g.amnesty.Some? && tx == g.amnesty.value.mercy ==> paid >= v - 324_500)
  {
    RunFollowsStory(lib, g, start, actions);
    TransactionsAreSeparate(lib, g);
    ChainTellsStory(lib, g, StoryOf(lib, g, start, actions), i);
    PaidToFew(Play(lib, g, start, actions).coins, g.refundScript);
  }

  /** Once TxPartialRefund is on the chain, and whatever becomes of the amnesty output, Bob holds at least
      four fifths of the lock less 170500 sats: the amnesty is capped, and so are the two fees. */
  lemma BobKeepsFourFifths(lib: Lib, g: Graph, start: nat, actions: seq<Action>, i: nat)
    requires Sound(lib, g) && g.amnesty.Some?
    requires i < |Play(lib, g, start, actions).chain|
    requires Play(lib, g, start, actions).chain[i].tx == g.amnesty.value.partialRefund
    ensures 5 * PaidTo(Play(lib, g, start, actions).coins, g.refundScript) >= 4 * g.lock.value - 5 * 170_500
  {
    hide Play, StoryOf, PaidTo, WellBuilt, CoinsOf, ChainOf;
    RunFollowsStory(lib, g, start, actions);
    AmnestyIsCapped(lib, g);
    var s := StoryOf(lib, g, start, actions);
    PartialTellsStory(lib, g, s, i);
    PartialIsHeld(lib, g, start, s);
    FirstIsPaid(CoinsOf(lib, g, start, s), g.refundScript);
  }

  predicate PartialConfirmed(s: Story) {
    s.PartlyRefunded? || s.Reclaimed? || s.Withheld? || s.Mercy?
  }

  lemma PartialTellsStory(lib: Lib, g: Graph, s: Story, i: nat)
    requires WellBuilt(lib, g) && Told(g, s) && g.amnesty.Some? && i < |ChainOf(g, s)|
    requires ChainOf(g, s)[i].tx == g.amnesty.value.partialRefund
    ensures PartialConfirmed(s)
  {
    assert |ChainOf(g, s)[i].tx.outs| == 2;
  }

  lemma PartialIsHeld(lib: Lib, g: Graph, start: nat, s: Story)
    requires Sound(lib, g) && WellBuilt(lib, g) && Told(g, s) && PartialConfirmed(s)
    ensures HasAmnesty(g.rq.params)
    ensures var coins, p := CoinsOf(lib, g, start, s), g.rq.params;
            && |coins| == 2 && coins[0].out.script == g.refundScript && coins[1].out.value >= 0
            && coins[0].out.value >= g.lock.value - AmnestyAmount(p) - 170_500
  {
    hide Acceptable, Candidate;
    AmountsAreAboveDust(lib, g);
  }

  lemma AmountsAreAboveDust(lib: Lib, g: Graph)
    requires Sound(lib, g) && HasAmnesty(g.rq.params)
    ensures var p := g.rq.params;
            && AmnestyAmount(p) >= 0 && AmnestyAmount(p) - p.reclaimFee.value >= 0 && WithholdValue(p) >= 0
            && WithholdValue(p) - p.mercyFee.value >= 0
  {
    AcceptsExactly(lib, g.rq);
  }

  lemma AmnestyIsCapped(lib: Lib, g: Graph)
    requires Sound(lib, g)
    ensures AmnestyAmount(g.rq.params) * 10_000 <= g.lock.value * 2000
  {
    AcceptsExactly(lib, g.rq);
  }

  lemma FirstIsPaid(coins: seq<Coin>, script: Bytes)
    requires |coins| == 2 && coins[0].out.script == script && coins[1].out.value >= 0
    ensures PaidTo(coins, script) >= coins[0].out.value
  {
    assert PaidTo(coins[1..], script) >= 0 by { assert coins[1..][1..] == []; }
  }

  lemma PaidToFew(coins: seq<Coin>, script: Bytes)
    ensures |coins| == 1 && coins[0].out.script == script ==> PaidTo(coins, script) == coins[0].out.value
    ensures |coins| == 2 && coins[0].out.script == coins[1].out.script == script ==>
              PaidTo(coins, script) == coins[0].out.value + coins[1].out.value
  {
    if |coins| == 2 {
      PaidToFew(coins[1..], script);
    }
  }

  /** While TxCancel is younger than its punish lock, Bob's full refund is open to him and Alice's
      punish is not: attempting it changes nothing. */
  lemma RefundWindow(lib: Lib, g: Graph, start: nat, actions: seq<Action>)
    requires Sound(lib, g) && g.fullRefund.Some?
    requires var l := Play(lib, g, start, actions);
             |l.chain| == 1 && l.chain[0].tx == g.cancel && l.height < l.chain[0].height + g.rq.params.punishTimelock
    ensures var l := Play(lib, g, start, actions);
            && Step(lib, g, l, Confirm(g.punish)) == l
            && Enabled(g, l, g.fullRefund.value)
            && PaidTo(Step(lib, g, l, Confirm(g.fullRefund.value)).coins, g.refundScript) >= g.lock.value - 154_000
  {
    RunFollowsStory(lib, g, start, actions);
    TransactionsAreSeparate(lib, g);
    var l, s := Play(lib, g, start, actions), StoryOf(lib, g, start, actions);
    ChainTellsStory(lib, g, s, 0);
    CancelledWindow(lib, g, start, l, l.chain[0].height);
  }

  lemma CancelledWindow(lib: Lib, g: Graph, start: nat, l: Ledger, c: nat)
    requires WellBuilt(lib, g) && Separate(lib, g) && Follows(lib, g, start, l, Cancelled(c)) && g.fullRefund.Some?
    requires l.height < c + g.rq.params.punishTimelock
    ensures Step(lib, g, l, Confirm(g.punish)) == l
    ensures Enabled(g, l, g.fullRefund.value)
    ensures PaidTo(Step(lib, g, l, Confirm(g.fullRefund.value)).coins, g.refundScript) >= g.lock.value - 154_000
  {
    var refund := g.fullRefund.value;
    assert l.coins[0].at == CancelAt(lib, g);
    assert Enabled(g, l, refund);
    StepFollowsStory(lib, g, start, l, Cancelled(c), refund);
    assert refund != g.punish by { assert g.punish.ins[0].sequence != SEQUENCE_FINAL; }
    PaidToFew(Step(lib, g, l, Confirm(refund)).coins, g.refundScript);
  }
}
