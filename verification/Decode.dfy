/**
 A block and its receipts, with the facts read about the contracts they touched, into
 the actions a detector runs on.
 */
module Decode {
  import opened Common
  import opened Abi
  import opened Sequences

  const TRANSFER_TOPIC: nat := 0xddf252ad1be2c89b69c2b068fc378daa952ba7f163c4a11628f55a4df523b3ef
  const V2_SWAP_TOPIC: nat := 0xd78ad95fa46c994b6551d0da85fc275fe613ce37657fb8d5e3d130840159d822

  datatype RawTx = RawTx(hash: nat, from: Address, to: Option<Address>)
  datatype RawBlock = RawBlock(number: nat, hash: nat, parentHash: nat, timestamp: nat, txs: seq<RawTx>)
  datatype RawLog = RawLog(address: Address, topics: seq<nat>, data: seq<Byte>)
  datatype RawReceipt = RawReceipt(
    txHash: nat, success: bool, gasUsed: nat, effectiveGasPrice: nat, logs: seq<RawLog>)

  datatype TokenTransfer = TokenTransfer(token: Address, from: Address, to: Address, amount: nat)
  datatype Swap = Swap(pool: Address, tokenIn: Address, tokenOut: Address, amountIn: nat, amountOut: nat)

  /** A `Swap` log before its pool is known to be real. */
  datatype V2SwapLog = V2SwapLog(
    pool: Address, amount0In: nat, amount1In: nat, amount0Out: nat, amount1Out: nat)
  {
    /** The swap's single direction, or `None` when it has none. */
    function Resolve(token0: Address, token1: Address): Option<Swap> {
      match (amount0In > 0, amount1In > 0, amount0Out > 0, amount1Out > 0)
      case (true, false, false, true) => Some(Swap(pool, token0, token1, amount0In, amount1Out))
      case (false, true, true, false) => Some(Swap(pool, token1, token0, amount1In, amount0Out))
      case _ => None
    }
  }

  function ParseSwap(log: RawLog): Option<V2SwapLog> {
    if |log.topics| != 3 || log.topics[0] != V2_SWAP_TOPIC || |log.data| != 4 * 32 then None else
    Some(V2SwapLog(log.address, U256Word(log.data, 0).value, U256Word(log.data, 1).value,
                   U256Word(log.data, 2).value, U256Word(log.data, 3).value))
  }

  function ParseTransfer(log: RawLog): Option<TokenTransfer> {
    if |log.topics| != 3 || log.topics[0] != TRANSFER_TOPIC || |log.data| != 32 then None else
    match (AsAddress(log.topics[1]), AsAddress(log.topics[2]))
    case (Some(from), Some(to)) => Some(TokenTransfer(log.address, from, to, U256Word(log.data, 0).value))
    case _ => None
  }

  /** No log is both a transfer and a swap. */
  lemma {:induction false} TransferIsNotSwap(log: RawLog)
    ensures !(ParseTransfer(log).Some? && ParseSwap(log).Some?)
  {}

  /** A swap resolves exactly when one side went in and the other came out, and then keeps its amounts. */
  lemma {:induction false} ResolveIff(s: V2SwapLog, token0: Address, token1: Address)
    ensures var r := s.Resolve(token0, token1);
            var zeroForOne := s.amount0In > 0 && s.amount1Out > 0 && s.amount1In == 0 && s.amount0Out == 0;
            var oneForZero := s.amount1In > 0 && s.amount0Out > 0 && s.amount0In == 0 && s.amount1Out == 0;
            && (r.Some? <==> zeroForOne || oneForZero)
            && (r.Some? ==> r.value.amountIn > 0 && r.value.amountOut > 0
                            && (zeroForOne <==> r == Some(Swap(s.pool, token0, token1, s.amount0In, s.amount1Out)))
                            && (zeroForOne || r == Some(Swap(s.pool, token1, token0, s.amount1In, s.amount0Out))))
  {}

  // ----- What the logs ask for -----

  datatype Needs = Needs(tokens: set<Address>, pools: set<Address>)

  ghost predicate TokenNeeded(receipts: seq<RawReceipt>, token: Address) {
    exists r, log :: r in receipts && r.success && log in r.logs && ParseTransfer(log).Some? && log.address == token
  }

  ghost predicate PoolNeeded(receipts: seq<RawReceipt>, pool: Address) {
    exists r, log :: r in receipts && r.success && log in r.logs && ParseSwap(log).Some? && log.address == pool
  }

  /** The contracts a block's receipts refer to. */
  method FindNeeds(receipts: seq<RawReceipt>) returns (needs: Needs)
    ensures forall a :: a in needs.tokens <==> TokenNeeded(receipts, a)
    ensures forall a :: a in needs.pools <==> PoolNeeded(receipts, a)
  {
    needs := Needs({}, {});
    for i := 0 to |receipts|
      invariant forall a :: a in needs.tokens <==> TokenNeeded(receipts[..i], a)
      invariant forall a :: a in needs.pools <==> PoolNeeded(receipts[..i], a)
    {
      assert receipts[..i + 1] == receipts[..i] + [receipts[i]];
      var r := receipts[i];
      if r.success {
        var tokens, pools := LogNeeds(r.logs);
        needs := Needs(needs.tokens + tokens, needs.pools + pools);
        MoreNeeded(receipts[..i], r, tokens, pools);
      } else {
        MoreNeeded(receipts[..i], r, {}, {});
      }
    }
    assert receipts[..|receipts|] == receipts;
  }

  method LogNeeds(logs: seq<RawLog>) returns (tokens: set<Address>, pools: set<Address>)
    ensures tokens == set log | log in logs && ParseTransfer(log).Some? :: log.address
    ensures pools == set log | log in logs && ParseSwap(log).Some? :: log.address
  {
    tokens, pools := {}, {};
    for j := 0 to |logs|
      invariant tokens == set log | log in logs[..j] && ParseTransfer(log).Some? :: log.address
      invariant pools == set log | log in logs[..j] && ParseSwap(log).Some? :: log.address
    {
      assert logs[..j + 1] == logs[..j] + [logs[j]];
      TransferIsNotSwap(logs[j]);
      if ParseTransfer(logs[j]).Some? {
        tokens := tokens + {logs[j].address};
      } else if ParseSwap(logs[j]).Some? {
        pools := pools + {logs[j].address};
      }
    }
    assert logs[..|logs|] == logs;
  }

  lemma {:induction false} MoreNeeded(before: seq<RawReceipt>, r: RawReceipt, tokens: set<Address>, pools: set<Address>)
    requires tokens == set log | r.success && log in r.logs && ParseTransfer(log).Some? :: log.address
    requires pools == set log | r.success && log in r.logs && ParseSwap(log).Some? :: log.address
    ensures forall a :: TokenNeeded(before + [r], a) <==> TokenNeeded(before, a) || a in tokens
    ensures forall a :: PoolNeeded(before + [r], a) <==> PoolNeeded(before, a) || a in pools
  {
    var all := before + [r];
    assert r in all;
    forall a: Address
      ensures TokenNeeded(all, a) <==> TokenNeeded(before, a) || a in tokens
      ensures PoolNeeded(all, a) <==> PoolNeeded(before, a) || a in pools
    {
      if TokenNeeded(before, a) {
        var q, log :| q in before && q.success && log in q.logs && ParseTransfer(log).Some? && log.address == a;
        assert q in all;
      }
      if PoolNeeded(before, a) {
        var q, log :| q in before && q.success && log in q.logs && ParseSwap(log).Some? && log.address == a;
        assert q in all;
      }
    }
  }

  // ----- Assembly -----

  datatype TokenMeta = TokenMeta(address: Address, symbol: Option<string>, decimals: Byte)
  datatype PoolState = PoolState(address: Address, token0: Address, token1: Address, reserve0: nat, reserve1: nat)

  datatype BlockFacts = BlockFacts(
    tokens: map<Address, TokenMeta>,
    poolTokens: map<Address, (Address, Address)>,
    poolStates: map<Address, PoolState>,
    prices: map<Address, real>)

  datatype AssembleStats = AssembleStats(
    txs: nat, revertedTxs: nat, transfers: nat, swaps: nat, unverifiedSwapLogs: nat, ambiguousSwapLogs: nat)

  datatype DecodeError =
    | ReceiptCount(txs: nat, receipts: nat)
    | MissingReceipt(tx: nat)
    | DuplicateTx(tx: nat)

  datatype TxActions = TxActions(
    hash: nat, from: Address, to: Option<Address>, transfers: seq<TokenTransfer>, swaps: seq<Swap>,
    gasUsed: nat, effectiveGasPrice: nat)

  /** What becomes of one log. */
  datatype Verdict = Transferred(t: TokenTransfer) | Swapped(s: Swap) | Unverified | Ambiguous | Other

  function Judge(facts: BlockFacts, log: RawLog): Verdict {
    match ParseTransfer(log)
    case Some(t) => Transferred(t)
    case None =>
      match ParseSwap(log)
      case None => Other
      case Some(raw) =>
        if raw.pool !in facts.poolTokens then Unverified else
        var (token0, token1) := facts.poolTokens[raw.pool];
        match raw.Resolve(token0, token1)
        case Some(s) => Swapped(s)
        case None => Ambiguous
  }

  function Transfers(facts: BlockFacts, logs: seq<RawLog>): seq<TokenTransfer> {
    if logs == [] then [] else
    var before := Transfers(facts, logs[..|logs| - 1]);
    match Judge(facts, logs[|logs| - 1])
    case Transferred(t) => before + [t]
    case _ => before
  }

  function Swaps(facts: BlockFacts, logs: seq<RawLog>): seq<Swap> {
    if logs == [] then [] else
    var before := Swaps(facts, logs[..|logs| - 1]);
    match Judge(facts, logs[|logs| - 1])
    case Swapped(s) => before + [s]
    case _ => before
  }

  function CountSwapLogs(logs: seq<RawLog>): nat {
    if logs == [] then 0 else
    CountSwapLogs(logs[..|logs| - 1]) + if ParseSwap(logs[|logs| - 1]).Some? then 1 else 0
  }

  function CountTransferLogs(logs: seq<RawLog>): nat {
    if logs == [] then 0 else
    CountTransferLogs(logs[..|logs| - 1]) + if ParseTransfer(logs[|logs| - 1]).Some? then 1 else 0
  }

  /** Swap logs refused: their pool unverified, and their direction ambiguous. */
  function Refused(facts: BlockFacts, logs: seq<RawLog>): (nat, nat) {
    if logs == [] then (0, 0) else
    var (unverified, ambiguous) := Refused(facts, logs[..|logs| - 1]);
    match Judge(facts, logs[|logs| - 1])
    case Unverified => (unverified + 1, ambiguous)
    case Ambiguous => (unverified, ambiguous + 1)
    case _ => (unverified, ambiguous)
  }

  /** Every swap log is a swap, unverified or ambiguous, and only one of them. */
  lemma {:induction false} SwapLogsPartition(facts: BlockFacts, logs: seq<RawLog>)
    ensures |Transfers(facts, logs)| == CountTransferLogs(logs)
    ensures var (unverified, ambiguous) := Refused(facts, logs);
            |Swaps(facts, logs)| + unverified + ambiguous == CountSwapLogs(logs)
    decreases |logs|
  {
    if logs != [] {
      SwapLogsPartition(facts, logs[..|logs| - 1]);
      TransferIsNotSwap(logs[|logs| - 1]);
    }
  }

  /** What a receipt's logs yield was emitted by one of them. */
  lemma {:induction false} YieldsComeFromLogs(facts: BlockFacts, logs: seq<RawLog>)
    ensures forall t <- Transfers(facts, logs) :: exists log :: log in logs && ParseTransfer(log) == Some(t)
    ensures forall s <- Swaps(facts, logs) :: exists log :: log in logs && ParseSwap(log).Some? && log.address == s.pool
    decreases |logs|
  {
    if logs != [] {
      var before, last := logs[..|logs| - 1], logs[|logs| - 1];
      assert logs == before + [last];
      YieldsComeFromLogs(facts, before);
      forall t <- Transfers(facts, logs)
        ensures exists log :: log in logs && ParseTransfer(log) == Some(t)
      {
        if t in Transfers(facts, before) {
          var log :| log in before && ParseTransfer(log) == Some(t);
          assert log in logs;
        } else {
          assert last in logs && ParseTransfer(last) == Some(t);
        }
      }
      forall s <- Swaps(facts, logs)
        ensures exists log :: log in logs && ParseSwap(log).Some? && log.address == s.pool
      {
        if s in Swaps(facts, before) {
          var log :| log in before && ParseSwap(log).Some? && log.address == s.pool;
          assert log in logs;
        } else {
          assert last in logs && ParseSwap(last).Some?;
        }
      }
    }
  }

  /** The logs of a receipt that count: none, if its transaction was reverted. */
  function LiveLogs(r: RawReceipt): seq<RawLog> {
    if r.success then r.logs else []
  }

  /** The actions of one transaction, from its receipt. */
  function Actions(facts: BlockFacts, tx: RawTx, r: RawReceipt): TxActions {
    TxActions(tx.hash, tx.from, tx.to, Transfers(facts, LiveLogs(r)), Swaps(facts, LiveLogs(r)),
              r.gasUsed, r.effectiveGasPrice)
  }

  function ByHash(receipts: seq<RawReceipt>): (m: map<nat, RawReceipt>)
    ensures forall h <- m :: m[h] in receipts && m[h].txHash == h
    ensures forall r <- receipts :: r.txHash in m
  {
    if receipts == [] then map[] else
    var last := receipts[|receipts| - 1];
    assert receipts == receipts[..|receipts| - 1] + [last];
    ByHash(receipts[..|receipts| - 1])[last.txHash := last]
  }

  /** One log loop: the transaction's transfers and swaps, and the swap logs refused. */
  method ReadLogs(facts: BlockFacts, r: RawReceipt)
    returns (transfers: seq<TokenTransfer>, swaps: seq<Swap>, unverified: nat, ambiguous: nat)
    ensures transfers == Transfers(facts, LiveLogs(r)) && swaps == Swaps(facts, LiveLogs(r))
    ensures (unverified, ambiguous) == Refused(facts, LiveLogs(r))
  {
    transfers, swaps, unverified, ambiguous := [], [], 0, 0;
    if !r.success {
      return;
    }
    for j := 0 to |r.logs|
      invariant transfers == Transfers(facts, r.logs[..j]) && swaps == Swaps(facts, r.logs[..j])
      invariant (unverified, ambiguous) == Refused(facts, r.logs[..j])
    {
      var log := r.logs[j];
      assert r.logs[..j + 1][..j] == r.logs[..j] && r.logs[..j + 1][j] == log;
      var transfer := ParseTransfer(log);
      if transfer.Some? {
        transfers := transfers + [transfer.value];
      } else {
        var raw := ParseSwap(log);
        if raw.Some? {
          if raw.value.pool !in facts.poolTokens {
            unverified := unverified + 1;
            continue;
          }
          var (token0, token1) := facts.poolTokens[raw.value.pool];
          var swap := raw.value.Resolve(token0, token1);
          if swap.Some? {
            swaps := swaps + [swap.value];
          } else {
            ambiguous := ambiguous + 1;
          }
        }
      }
    }
    assert r.logs[..|r.logs|] == r.logs;
  }

  ghost function TxHashes(txs: seq<RawTx>): (hs: seq<nat>)
    ensures |hs| == |txs| && forall i | 0 <= i < |txs| :: hs[i] == txs[i].hash
  {
    seq(|txs|, i requires 0 <= i < |txs| => txs[i].hash)
  }

  ghost function ReceiptHashes(receipts: seq<RawReceipt>): (hs: seq<nat>)
    ensures |hs| == |receipts| && forall i | 0 <= i < |receipts| :: hs[i] == receipts[i].txHash
  {
    seq(|receipts|, i requires 0 <= i < |receipts| => receipts[i].txHash)
  }

  /** Receipts and transactions pair off by hash, none left over and none twice. */
  ghost predicate PairOff(txs: seq<RawTx>, receipts: seq<RawReceipt>) {
    && NoDup(TxHashes(txs)) && NoDup(ReceiptHashes(receipts))
    && Elements(TxHashes(txs)) == Elements(ReceiptHashes(receipts))
  }

  lemma {:induction false} PairOffIff(txs: seq<RawTx>, receipts: seq<RawReceipt>)
    ensures PairOff(txs, receipts) <==>
            |txs| == |receipts| && NoDup(TxHashes(txs)) && forall h <- TxHashes(txs) :: h in ByHash(receipts)
  {
    var ts, rs := TxHashes(txs), ReceiptHashes(receipts);
    NoDupSize(ts);
    NoDupSize(rs);
    assert forall h <- ts :: h in Elements(ts);
    assert forall h <- rs :: h in Elements(rs);
    forall h | h in rs ensures h in ByHash(receipts) {
      var i :| 0 <= i < |rs| && rs[i] == h;
      assert receipts[i] in receipts;
    }
    forall h | h in ByHash(receipts) ensures h in rs {
      var i :| 0 <= i < |receipts| && receipts[i] == ByHash(receipts)[h];
      assert rs[i] == h;
    }
    if |txs| == |receipts| && NoDup(ts) && forall h <- ts :: h in ByHash(receipts) {
      Pigeonhole(ts, rs);
      assert Elements(ts) == Elements(rs);
    }
  }

  /** The receipt of each transaction, in block order. */
  ghost function Paired(txs: seq<RawTx>, receipts: seq<RawReceipt>): (rs: seq<RawReceipt>)
    requires forall tx <- txs :: tx.hash in ByHash(receipts)
    ensures |rs| == |txs| && forall i | 0 <= i < |txs| :: rs[i] == ByHash(receipts)[txs[i].hash]
  {
    seq(|txs|, i requires 0 <= i < |txs| => ByHash(receipts)[txs[i].hash])
  }

  lemma {:induction false} PairedDistinct(txs: seq<RawTx>, receipts: seq<RawReceipt>)
    requires PairOff(txs, receipts) && forall tx <- txs :: tx.hash in ByHash(receipts)
    ensures NoDup(Paired(txs, receipts)) && NoDup(receipts)
  {
    var ps := Paired(txs, receipts);
    var ts, hs := TxHashes(txs), ReceiptHashes(receipts);
    forall i, j | 0 <= i < j < |ps| ensures ps[i] != ps[j] {
      assert ts[i] != ts[j];
    }
    forall i, j | 0 <= i < j < |receipts| ensures receipts[i] != receipts[j] {
      assert hs[i] != hs[j];
    }
  }

  lemma {:induction false} TxOfHash(txs: seq<RawTx>, h: nat) returns (j: nat)
    requires h in Elements(TxHashes(txs))
    ensures j < |txs| && txs[j].hash == h
  {
    j :| 0 <= j < |txs| && TxHashes(txs)[j] == h;
  }

  lemma {:induction false} SameHashSameReceipt(receipts: seq<RawReceipt>, r: RawReceipt, q: RawReceipt)
    requires NoDup(ReceiptHashes(receipts)) && r in receipts && q in receipts && r.txHash == q.txHash
    ensures r == q
  {
    var i :| 0 <= i < |receipts| && receipts[i] == r;
    var k :| 0 <= k < |receipts| && receipts[k] == q;
    assert ReceiptHashes(receipts)[i] == ReceiptHashes(receipts)[k];
  }

  lemma {:induction false} ReceiptIsPaired(txs: seq<RawTx>, receipts: seq<RawReceipt>, r: RawReceipt)
    requires PairOff(txs, receipts) && (forall tx <- txs :: tx.hash in ByHash(receipts)) && r in receipts
    ensures r in Paired(txs, receipts)
  {
    assert r.txHash in Elements(ReceiptHashes(receipts)) by {
      var i :| 0 <= i < |receipts| && receipts[i] == r;
      assert ReceiptHashes(receipts)[i] == r.txHash;
    }
    var j := TxOfHash(txs, r.txHash);
    SameHashSameReceipt(receipts, Paired(txs, receipts)[j], r);
  }

  lemma {:induction false} PairedPermutes(txs: seq<RawTx>, receipts: seq<RawReceipt>)
    requires PairOff(txs, receipts) && forall tx <- txs :: tx.hash in ByHash(receipts)
    ensures multiset(Paired(txs, receipts)) == multiset(receipts)
  {
    PairedDistinct(txs, receipts);
    var ps := Paired(txs, receipts);
    forall r <- receipts ensures r in ps {
      ReceiptIsPaired(txs, receipts, r);
    }
    forall r <- ps ensures r in receipts {
      var j :| 0 <= j < |ps| && ps[j] == r;
    }
    SameElementsPermute(ps, receipts);
  }

  /** What some receipts hold, reverted ones included. */
  datatype Totals = Totals(receipts: nat, reverted: nat, transferLogs: nat, swapLogs: nat)

  function Add(t: Totals, u: Totals): Totals {
    Totals(t.receipts + u.receipts, t.reverted + u.reverted,
           t.transferLogs + u.transferLogs, t.swapLogs + u.swapLogs)
  }

  function OneReceipt(r: RawReceipt): Totals {
    Totals(1, if r.success then 0 else 1, CountTransferLogs(LiveLogs(r)), CountSwapLogs(LiveLogs(r)))
  }

  function TotalsOf(receipts: seq<RawReceipt>): Totals {
    if receipts == [] then Totals(0, 0, 0, 0)
    else Add(TotalsOf(receipts[..|receipts| - 1]), OneReceipt(receipts[|receipts| - 1]))
  }

  lemma {:induction false} AddExchange(t: Totals, u: Totals, v: Totals)
    ensures Add(Add(t, u), v) == Add(Add(t, v), u)
  {}

  lemma {:induction false} TotalsSnoc(a: seq<RawReceipt>, x: RawReceipt)
    ensures TotalsOf(a + [x]) == Add(TotalsOf(a), OneReceipt(x))
  {
    assert (a + [x])[..|a|] == a;
  }

  lemma {:induction false} TotalsMiddle(a: seq<RawReceipt>, x: RawReceipt, b: seq<RawReceipt>)
    ensures TotalsOf(a + [x] + b) == Add(TotalsOf(a + b), OneReceipt(x))
    decreases |b|
  {
    if b == [] {
      assert a + [x] + b == a + [x] && a + b == a;
      TotalsSnoc(a, x);
    } else {
      var front, y := b[..|b| - 1], b[|b| - 1];
      assert a + [x] + b == (a + [x] + front) + [y] && a + b == (a + front) + [y];
      TotalsMiddle(a, x, front);
      TotalsSnoc(a + [x] + front, y);
      TotalsSnoc(a + front, y);
      AddExchange(TotalsOf(a + front), OneReceipt(x), OneReceipt(y));
    }
  }

  /** The totals do not depend on the order of the receipts. */
  lemma {:induction false} TotalsPermute(s: seq<RawReceipt>, t: seq<RawReceipt>)
    requires multiset(s) == multiset(t)
    ensures TotalsOf(s) == TotalsOf(t)
    decreases |s|
  {
    if s == [] {
      assert |t| == |multiset(t)| == 0;
    } else {
      var i := TakeOutLast(s, t);
      TotalsMiddle(t[..i], t[i], t[i + 1..]);
      TotalsPermute(s[..|s| - 1], t[..i] + t[i + 1..]);
    }
  }

  /** The counters after one more receipt. */
  function Count(facts: BlockFacts, stats: AssembleStats, r: RawReceipt): AssembleStats {
    var logs := LiveLogs(r);
    var (unverified, ambiguous) := Refused(facts, logs);
    AssembleStats(stats.txs + 1, stats.revertedTxs + if r.success then 0 else 1,
                  stats.transfers + |Transfers(facts, logs)|, stats.swaps + |Swaps(facts, logs)|,
                  stats.unverifiedSwapLogs + unverified, stats.ambiguousSwapLogs + ambiguous)
  }

  /** The assembly of the first transactions with their receipts. */
  ghost function Assembled(facts: BlockFacts, txs: seq<RawTx>, paired: seq<RawReceipt>, n: nat)
    : (r: (seq<TxActions>, AssembleStats))
    requires n <= |txs| && n <= |paired|
    ensures |r.0| == n
  {
    if n == 0 then ([], AssembleStats(0, 0, 0, 0, 0, 0)) else
    var (actions, stats) := Assembled(facts, txs, paired, n - 1);
    (actions + [Actions(facts, txs[n - 1], paired[n - 1])], Count(facts, stats, paired[n - 1]))
  }

  /** The counters add up over the receipts: every swap log is counted exactly once. */
  ghost predicate Tallied(receipts: seq<RawReceipt>, stats: AssembleStats) {
    TotalsOf(receipts) == Totals(stats.txs, stats.revertedTxs, stats.transfers,
                                 stats.swaps + stats.unverifiedSwapLogs + stats.ambiguousSwapLogs)
  }

  /** Every token and pool met is one the needs name. */
  ghost predicate AllNeeded(receipts: seq<RawReceipt>, actions: seq<TxActions>) {
    forall a <- actions :: (forall t <- a.transfers :: TokenNeeded(receipts, t.token))
                        && (forall s <- a.swaps :: PoolNeeded(receipts, s.pool))
  }

  lemma {:induction false} CountTallies(facts: BlockFacts, stats: AssembleStats, r: RawReceipt, before: seq<RawReceipt>)
    requires Tallied(before, stats)
    ensures Tallied(before + [r], Count(facts, stats, r))
  {
    SwapLogsPartition(facts, LiveLogs(r));
    assert (before + [r])[..|before|] == before;
  }

  lemma {:induction false} AssembledTallies(facts: BlockFacts, txs: seq<RawTx>, paired: seq<RawReceipt>, n: nat)
    requires n <= |txs| && n <= |paired|
    ensures Tallied(paired[..n], Assembled(facts, txs, paired, n).1)
    decreases n
  {
    if n > 0 {
      AssembledTallies(facts, txs, paired, n - 1);
      assert paired[..n] == paired[..n - 1] + [paired[n - 1]];
      CountTallies(facts, Assembled(facts, txs, paired, n - 1).1, paired[n - 1], paired[..n - 1]);
    }
  }

  lemma {:induction false} AssembledIsNeeded(facts: BlockFacts, txs: seq<RawTx>, paired: seq<RawReceipt>, n: nat,
                                             receipts: seq<RawReceipt>)
    requires n <= |txs| && n <= |paired| && forall r <- paired :: r in receipts
    ensures AllNeeded(receipts, Assembled(facts, txs, paired, n).0)
    decreases n
  {
    if n > 0 {
      AssembledIsNeeded(facts, txs, paired, n - 1, receipts);
      ActionsAreNeeded(facts, txs[n - 1], paired[n - 1], receipts);
    }
  }

  lemma {:induction false} ActionsAreNeeded(facts: BlockFacts, tx: RawTx, r: RawReceipt, receipts: seq<RawReceipt>)
    requires r in receipts
    ensures AllNeeded(receipts, [Actions(facts, tx, r)])
  {
    YieldsComeFromLogs(facts, LiveLogs(r));
    forall t <- Transfers(facts, LiveLogs(r)) ensures TokenNeeded(receipts, t.token) {
      var log :| log in LiveLogs(r) && ParseTransfer(log) == Some(t);
      assert log in r.logs && log.address == t.token;
    }
    forall s <- Swaps(facts, LiveLogs(r)) ensures PoolNeeded(receipts, s.pool) {
      var log :| log in LiveLogs(r) && ParseSwap(log).Some? && log.address == s.pool;
      assert log in r.logs;
    }
  }

  /** One transaction's actions, and the counters with it. */
  method AssembleTx(facts: BlockFacts, tx: RawTx, receipt: RawReceipt, before: AssembleStats)
    returns (action: TxActions, stats: AssembleStats)
    ensures action == Actions(facts, tx, receipt) && stats == Count(facts, before, receipt)
  {
    var transfers, swaps, unverified, ambiguous := ReadLogs(facts, receipt);
    stats := AssembleStats(
      before.txs + 1,
      before.revertedTxs + if receipt.success then 0 else 1,
      before.transfers + |transfers|,
      before.swaps + |swaps|,
      before.unverifiedSwapLogs + unverified,
      before.ambiguousSwapLogs + ambiguous);
    action := TxActions(tx.hash, tx.from, tx.to, transfers, swaps, receipt.gasUsed, receipt.effectiveGasPrice);
  }

  ghost function HashesBefore(txs: seq<RawTx>, n: nat): set<nat>
    requires n <= |txs|
  {
    if n == 0 then {} else HashesBefore(txs, n - 1) + {txs[n - 1].hash}
  }

  /** What assembling the first transactions gives, or the first thing wrong with them. */
  ghost function Assembling(facts: BlockFacts, txs: seq<RawTx>, byHash: map<nat, RawReceipt>, n: nat)
    : Result<(seq<TxActions>, AssembleStats), DecodeError>
    requires n <= |txs|
  {
    if n == 0 then Ok(([], AssembleStats(0, 0, 0, 0, 0, 0))) else
    match Assembling(facts, txs, byHash, n - 1)
    case Err(e) => Err(e)
    case Ok((actions, stats)) =>
      var tx := txs[n - 1];
      if tx.hash in HashesBefore(txs, n - 1) then Err(DuplicateTx(tx.hash))
      else if tx.hash !in byHash then Err(MissingReceipt(tx.hash))
      else Ok((actions + [Actions(facts, tx, byHash[tx.hash])], Count(facts, stats, byHash[tx.hash])))
  }

  lemma {:induction false} FirstErrorStays(facts: BlockFacts, txs: seq<RawTx>, byHash: map<nat, RawReceipt>, n: nat,
                                           m: nat)
    requires n <= m <= |txs| && Assembling(facts, txs, byHash, n).Err?
    ensures Assembling(facts, txs, byHash, m) == Assembling(facts, txs, byHash, n)
    decreases m
  {
    if n < m { FirstErrorStays(facts, txs, byHash, n, m - 1); }
  }

  /** Build the actions of a block, in block order, or say why it cannot be assembled. */
  method Assemble(block: RawBlock, receipts: seq<RawReceipt>, facts: BlockFacts)
    returns (r: Result<(seq<TxActions>, AssembleStats), DecodeError>)
    ensures r == if |receipts| == |block.txs| then Assembling(facts, block.txs, ByHash(receipts), |block.txs|)
                 else Err(ReceiptCount(|block.txs|, |receipts|))
  {
    var txs := block.txs;
    if |receipts| != |txs| {
      return Err(ReceiptCount(|txs|, |receipts|));
    }
    var byHash := ByHash(receipts);
    var seen: set<nat> := {};
    var stats := AssembleStats(0, 0, 0, 0, 0, 0);
    var actions: seq<TxActions> := [];
    for i := 0 to |txs|
      invariant seen == HashesBefore(txs, i)
      invariant Assembling(facts, txs, byHash, i) == Ok((actions, stats))
    {
      var tx := txs[i];
      if tx.hash in seen {
        FirstErrorStays(facts, txs, byHash, i + 1, |txs|);
        return Err(DuplicateTx(tx.hash));
      }
      seen := seen + {tx.hash};
      if tx.hash !in byHash {
        FirstErrorStays(facts, txs, byHash, i + 1, |txs|);
        return Err(MissingReceipt(tx.hash));
      }
      var action;
      action, stats := AssembleTx(facts, tx, byHash[tx.hash], stats);
      actions := actions + [action];
    }
    return Ok((actions, stats));
  }

  lemma {:induction false} HashesBeforeAre(txs: seq<RawTx>, n: nat)
    requires n <= |txs|
    ensures HashesBefore(txs, n) == Elements(TxHashes(txs)[..n])
    decreases n
  {
    if n > 0 {
      HashesBeforeAre(txs, n - 1);
      assert TxHashes(txs)[..n] == TxHashes(txs)[..n - 1] + [txs[n - 1].hash];
    }
  }

  lemma {:induction false} SeenBeforeIff(txs: seq<RawTx>, n: nat)
    requires n < |txs|
    ensures txs[n].hash in HashesBefore(txs, n) <==> exists i :: 0 <= i < n && TxHashes(txs)[i] == TxHashes(txs)[n]
  {
    HashesBeforeAre(txs, n);
  }

  lemma {:induction false} PairedAssembles(facts: BlockFacts, txs: seq<RawTx>, receipts: seq<RawReceipt>, n: nat)
    requires n <= |txs| && NoDup(TxHashes(txs)) && forall tx <- txs :: tx.hash in ByHash(receipts)
    ensures Assembling(facts, txs, ByHash(receipts), n) == Ok(Assembled(facts, txs, Paired(txs, receipts), n))
    decreases n
  {
    if n > 0 {
      PairedAssembles(facts, txs, receipts, n - 1);
      SeenBeforeIff(txs, n - 1);
      assert txs[n - 1] in txs;
    }
  }

  /** Whether an error is one the transactions and receipts really have. */
  ghost predicate Justified(txs: seq<RawTx>, receipts: seq<RawReceipt>, e: DecodeError) {
    match e
    case ReceiptCount(n, m) => n == |txs| != |receipts| == m
    case MissingReceipt(h) => h in TxHashes(txs) && h !in ReceiptHashes(receipts)
    case DuplicateTx(h) => multiset(TxHashes(txs))[h] >= 2
  }

  lemma {:induction false} NextErrorIsJustified(facts: BlockFacts, txs: seq<RawTx>, receipts: seq<RawReceipt>, n: nat)
    requires n < |txs| && Assembling(facts, txs, ByHash(receipts), n).Ok?
    ensures var r := Assembling(facts, txs, ByHash(receipts), n + 1);
            r.Err? ==> Justified(txs, receipts, r.error)
  {
    var h := txs[n].hash;
    assert TxHashes(txs)[n] == h;
    if h in HashesBefore(txs, n) {
      SeenBeforeIff(txs, n);
      TwiceInMultiset(TxHashes(txs), n);
    } else if h !in ByHash(receipts) {
      NoReceipt(txs, receipts, n);
    }
  }

  /** Where assembling first went wrong. */
  lemma {:induction false} FirstError(facts: BlockFacts, txs: seq<RawTx>, byHash: map<nat, RawReceipt>, n: nat)
    returns (i: nat)
    requires n <= |txs| && Assembling(facts, txs, byHash, n).Err?
    ensures i < n && Assembling(facts, txs, byHash, i).Ok?
    ensures Assembling(facts, txs, byHash, i + 1) == Assembling(facts, txs, byHash, n)
    decreases n
  {
    if Assembling(facts, txs, byHash, n - 1).Err? {
      i := FirstError(facts, txs, byHash, n - 1);
    } else {
      i := n - 1;
    }
  }

  lemma {:induction false} ErrorsAreJustified(facts: BlockFacts, txs: seq<RawTx>, receipts: seq<RawReceipt>, n: nat)
    requires n <= |txs|
    ensures var r := Assembling(facts, txs, ByHash(receipts), n);
            r.Err? ==> Justified(txs, receipts, r.error)
  {
    if Assembling(facts, txs, ByHash(receipts), n).Err? {
      var i := FirstError(facts, txs, ByHash(receipts), n);
      NextErrorIsJustified(facts, txs, receipts, i);
    }
  }

  /**
   Assembling succeeds exactly when receipts and transactions pair off by hash, and then
   gives each transaction its own receipt; an error names something really wrong.
   */
  lemma {:induction false} AssemblesIff(facts: BlockFacts, txs: seq<RawTx>, receipts: seq<RawReceipt>)
    requires |txs| == |receipts|
    ensures var r := Assembling(facts, txs, ByHash(receipts), |txs|);
            && (r.Ok? <==> PairOff(txs, receipts))
            && (r.Ok? ==> forall tx <- txs :: tx.hash in ByHash(receipts))
            && (r.Ok? ==> r.value == Assembled(facts, txs, Paired(txs, receipts), |txs|))
            && (r.Err? ==> Justified(txs, receipts, r.error))
  {
    ErrorsAreJustified(facts, txs, receipts, |txs|);
    PairOffIff(txs, receipts);
    if Assembling(facts, txs, ByHash(receipts), |txs|).Ok? {
      OkIsDistinct(facts, txs, ByHash(receipts), |txs|);
    }
    if PairOff(txs, receipts) || Assembling(facts, txs, ByHash(receipts), |txs|).Ok? {
      forall tx <- txs ensures tx.hash in ByHash(receipts) {
        var i :| 0 <= i < |txs| && txs[i] == tx;
        assert TxHashes(txs)[i] in TxHashes(txs);
      }
      PairedAssembles(facts, txs, receipts, |txs|);
    }
  }

  lemma {:induction false} OkIsDistinct(facts: BlockFacts, txs: seq<RawTx>, byHash: map<nat, RawReceipt>, n: nat)
    requires n <= |txs| && Assembling(facts, txs, byHash, n).Ok?
    ensures forall i, j | 0 <= i < j < n :: TxHashes(txs)[i] != TxHashes(txs)[j]
    ensures forall i | 0 <= i < n :: txs[i].hash in byHash
    decreases n
  {
    if n > 0 {
      OkIsDistinct(facts, txs, byHash, n - 1);
      SeenBeforeIff(txs, n - 1);
    }
  }

  /**
   An assembled block: its receipts and transactions pair off by hash, every swap log of a
   successful receipt is counted exactly once as swap, unverified or ambiguous, and every
   token and pool its actions meet is one the needs ask for.
   */
  lemma {:induction false} AssembledBlock(facts: BlockFacts, txs: seq<RawTx>, receipts: seq<RawReceipt>)
    requires PairOff(txs, receipts)
    ensures forall tx <- txs :: tx.hash in ByHash(receipts)
    ensures var (actions, stats) := Assembled(facts, txs, Paired(txs, receipts), |txs|);
            Tallied(receipts, stats) && AllNeeded(receipts, actions)
  {
    PairOffIff(txs, receipts);
    forall tx <- txs ensures tx.hash in ByHash(receipts) {
      var i :| 0 <= i < |txs| && txs[i] == tx;
      assert TxHashes(txs)[i] in TxHashes(txs);
    }
    var paired := Paired(txs, receipts);
    AssembledTallies(facts, txs, paired, |txs|);
    assert paired[..|txs|] == paired;
    assert TotalsOf(paired) == TotalsOf(receipts) by {
      PairedPermutes(txs, receipts);
      TotalsPermute(paired, receipts);
    }
    forall r <- paired ensures r in receipts {
      var i :| 0 <= i < |paired| && paired[i] == r;
    }
    AssembledIsNeeded(facts, txs, paired, |txs|, receipts);
  }

  lemma {:induction false} NoReceipt(txs: seq<RawTx>, receipts: seq<RawReceipt>, i: nat)
    requires i < |txs| && txs[i].hash !in ByHash(receipts)
    ensures txs[i].hash in TxHashes(txs) && txs[i].hash !in ReceiptHashes(receipts)
  {
    assert TxHashes(txs)[i] == txs[i].hash;
    forall j | 0 <= j < |receipts| ensures ReceiptHashes(receipts)[j] != txs[i].hash {
      assert receipts[j] in receipts;
    }
  }

  lemma {:induction false} TwiceInMultiset(hashes: seq<nat>, i: nat)
    requires i < |hashes| && exists j :: 0 <= j < i && hashes[j] == hashes[i]
    ensures multiset(hashes)[hashes[i]] >= 2
  {
    assert hashes == hashes[..i] + [hashes[i]] + hashes[i + 1..];
    assert hashes[i] in hashes[..i];
    assert hashes[i] in multiset(hashes[..i]);
  }
}
