/**
 Reading the facts of a block from a node, through two caches that remember answers
 across blocks. The reads of one fan-out finish in any order, and enrichments of other
 blocks may put and evict cache entries between any two of them.
 */
module Enricher {
  import opened Common
  import opened Abi
  import opened BoundedMap
  import opened Decode

  /** What a contract call comes back with. */
  datatype Outcome = Reverted | Returned(bytes: seq<Byte>)

  /** The state a node answers from: a call's outcome at a block hash. */
  datatype Node = Node(call: (Address, string, nat) -> Outcome)

  datatype PriceFeed = PriceFeed(token: Address, feed: Address, maxAge: nat, decimals: nat)

  /**
   `deployed` is the CREATE2 check against the configured venues, `symbol` the display
   decoding of a token's name, `usd` the price an answer means at a number of decimals.
   */
  datatype Config = Config(
    deployed: (Address, Address, Address) -> bool,
    feeds: seq<PriceFeed>,
    symbol: seq<Byte> -> Option<string>,
    usd: (nat, nat) -> Option<real>)

  datatype PoolIdentity = Verified(token0: Address, token1: Address) | Unverified

  datatype PriceRead = Price(usd: real) | Stale | Invalid

  /** An answer, and whether it may be remembered. */
  datatype Read<V> = Read(value: V, cacheable: bool)

  // ----- The reads, uncached -----

  function AddressCall(node: Node, to: Address, signature: string, at: nat): Option<Address> {
    match node.call(to, signature, at)
    case Returned(bytes) => if |bytes| == 32 then AddressWord(bytes, 0) else None
    case Reverted => None
  }

  /** Whether a pool is a configured venue's pair; either answer is final. */
  function ReadIdentity(node: Node, config: Config, pool: Address, at: nat): Read<PoolIdentity> {
    match (AddressCall(node, pool, "token0()", at), AddressCall(node, pool, "token1()", at))
    case (Some(token0), Some(token1)) =>
      Read(if config.deployed(pool, token0, token1) then Verified(token0, token1) else PoolIdentity.Unverified, true)
    case _ => Read(PoolIdentity.Unverified, true)
  }

  /** A token's metadata. No code at the address is an answer that is not remembered. */
  function ReadMeta(node: Node, config: Config, token: Address, at: nat): Read<Option<TokenMeta>> {
    match node.call(token, "decimals()", at)
    case Reverted => Read(None, true)
    case Returned(bytes) =>
      if bytes == [] then Read(None, false) else
      match U8Word(bytes, 0)
      case None => Read(None, true)
      case Some(decimals) =>
        var symbol := match node.call(token, "symbol()", at)
                      case Returned(text) => config.symbol(text)
                      case Reverted => None;
        Read(Some(TokenMeta(token, symbol, decimals)), true)
  }

  function ReadReserves(node: Node, pool: Address, tokens: (Address, Address), before: nat): Option<PoolState> {
    match node.call(pool, "getReserves()", before)
    case Reverted => None
    case Returned(bytes) =>
      match (U256Word(bytes, 0), U256Word(bytes, 1))
      case (Some(r0), Some(r1)) => Some(PoolState(pool, tokens.0, tokens.1, r0, r1))
      case _ => None
  }

  function ReadPrice(node: Node, config: Config, feed: PriceFeed, block: RawBlock): PriceRead {
    match node.call(feed.feed, "latestRoundData()", block.hash)
    case Reverted => Invalid
    case Returned(bytes) =>
      match (U256Word(bytes, 1), U256Word(bytes, 3))
      case (Some(answer), Some(updatedAt)) =>
        // `answer` is an int256, so one with the top bit set is negative.
        if updatedAt >= 0x1_0000_0000_0000_0000 then Invalid
        else if answer == 0 || answer >= TWO_255 || updatedAt > block.timestamp then Invalid
        else if block.timestamp - updatedAt > feed.maxAge then Stale
        else (match config.usd(answer, feed.decimals)
              case Some(p) => Price(p)
              case None => Invalid)
      case _ => Invalid
  }

  const TWO_255: nat := 0x8000000000000000_0000000000000000_0000000000000000_0000000000000000

  /** The first feed configured for a token. */
  function FeedFor(feeds: seq<PriceFeed>, token: Address): (f: Option<PriceFeed>)
    ensures f.Some? ==> f.value.token == token && f.value in feeds
  {
    if feeds == [] then None
    else if feeds[0].token == token then Some(feeds[0])
    else FeedFor(feeds[1..], token)
  }

  // ----- The facts of a block, read one after another with no cache -----

  datatype Report = Report(nonErc20: nat, unverifiedPools: nat, poolsWithoutReserves: nat, stale: nat, invalid: nat)

  ghost function PoolTokens(node: Node, config: Config, at: nat, pools: set<Address>): map<Address,
                            (Address, Address)> {
    map p | p in pools && ReadIdentity(node, config, p, at).value.Verified? ::
      var v := ReadIdentity(node, config, p, at).value; (v.token0, v.token1)
  }

  ghost function UnverifiedPools(node: Node, config: Config, at: nat, pools: set<Address>): set<Address> {
    set p | p in pools && ReadIdentity(node, config, p, at).value.Unverified?
  }

  /** The tokens a block touches: those that emitted a transfer and those of its verified pools. */
  ghost function Touched(tokens: set<Address>, poolTokens: map<Address, (Address, Address)>): set<Address> {
    tokens + (set p | p in poolTokens :: poolTokens[p].0) + (set p | p in poolTokens :: poolTokens[p].1)
  }

  function Reserves(node: Node, poolTokens: map<Address, (Address, Address)>, before: nat,
                    pool: Address): Option<PoolState> {
    if pool in poolTokens then ReadReserves(node, pool, poolTokens[pool], before) else None
  }

  ghost function States(node: Node, poolTokens: map<Address, (Address, Address)>, before: nat, pools: set<Address>)
    : map<Address, PoolState>
  {
    map p | p in pools && Reserves(node, poolTokens, before, p).Some? :: Reserves(node, poolTokens, before, p).value
  }

  ghost function Stateless(node: Node, poolTokens: map<Address, (Address, Address)>, before: nat, pools: set<Address>)
    : set<Address>
  {
    set p | p in pools && Reserves(node, poolTokens, before, p).None?
  }

  ghost function Metas(node: Node, config: Config, at: nat, tokens: set<Address>): map<Address, TokenMeta> {
    map t | t in tokens && ReadMeta(node, config, t, at).value.Some? :: ReadMeta(node, config, t, at).value.value
  }

  ghost function NotErc20(node: Node, config: Config, at: nat, tokens: set<Address>): set<Address> {
    set t | t in tokens && ReadMeta(node, config, t, at).value.None?
  }

  function PriceOf(node: Node, config: Config, block: RawBlock, token: Address): Option<PriceRead> {
    match FeedFor(config.feeds, token)
    case Some(feed) => Some(ReadPrice(node, config, feed, block))
    case None => None
  }

  function PriceOr(node: Node, config: Config, block: RawBlock, token: Address): PriceRead {
    match PriceOf(node, config, block, token)
    case Some(read) => read
    case None => Invalid
  }

  ghost function Prices(node: Node, config: Config, block: RawBlock, tokens: set<Address>): map<Address, real> {
    map t | t in tokens && PriceOf(node, config, block, t).Some? && PriceOf(node, config, block, t).value.Price? ::
      PriceOf(node, config, block, t).value.usd
  }

  ghost function PricedAs(node: Node, config: Config, block: RawBlock, tokens: set<Address>,
                          read: PriceRead): set<Address> {
    set t | t in tokens && PriceOf(node, config, block, t) == Some(read)
  }

  ghost function Facts(node: Node, config: Config, block: RawBlock, needs: Needs): BlockFacts {
    var pt := PoolTokens(node, config, block.hash, needs.pools);
    var touched := Touched(needs.tokens, pt);
    BlockFacts(Metas(node, config, block.hash, touched), pt,
               States(node, pt, block.parentHash, pt.Keys), Prices(node, config, block, touched))
  }

  ghost function ReportOf(node: Node, config: Config, block: RawBlock, needs: Needs): Report {
    var pt := PoolTokens(node, config, block.hash, needs.pools);
    var touched := Touched(needs.tokens, pt);
    Report(|NotErc20(node, config, block.hash, touched)|,
           |UnverifiedPools(node, config, block.hash, needs.pools)|,
           |Stateless(node, pt, block.parentHash, pt.Keys)|,
           |PricedAs(node, config, block, touched, Stale)|,
           |PricedAs(node, config, block, touched, Invalid)|)
  }

  // ----- A fan-out through a cache, step by step -----

  /**
   One read looks in the cache; the node answers one that missed, and what may be remembered
   is put; a read fails, which abandons the rest; or an enrichment elsewhere puts an answer.
   */
  datatype Step<K, V> = Begin(key: K) | Answer(key: K) | Lose | Other(key: K, value: V)

  datatype Fan<K, V> = Fan(cache: Content<K, V>, waiting: set<K>, asking: set<K>, results: seq<(K, V)>, lost: bool) {
    ghost predicate Ended() {
      lost || (waiting == {} && asking == {})
    }
  }

  ghost function Start<K, V>(cache: Content<K, V>, keys: set<K>): Fan<K, V> {
    Fan(cache, keys, {}, [], false)
  }

  /** What a step does; one that is not possible does nothing. */
  ghost function After<K, V>(capacity: nat, read: K -> Read<V>, s: Fan<K, V>, e: Step<K, V>): Fan<K, V> {
    match e
    case Begin(k) =>
      if s.lost || k !in s.waiting then s
      else if k in s.cache.entries then s.(waiting := s.waiting - {k}, results := s.results + [(k, s.cache.entries[k])])
      else s.(waiting := s.waiting - {k}, asking := s.asking + {k})
    case Answer(k) =>
      if s.lost || k !in s.asking then s else
      s.(asking := s.asking - {k}, results := s.results + [(k, read(k).value)],
         cache := if read(k).cacheable then AfterPut(capacity, s.cache, k, read(k).value) else s.cache)
    case Lose => if s.asking == {} then s else s.(lost := true)
    case Other(k, v) => s.(cache := AfterPut(capacity, s.cache, k, v))
  }

  ghost function Fanned<K, V>(capacity: nat, read: K -> Read<V>, s: Fan<K, V>, steps: seq<Step<K, V>>): Fan<K, V>
    decreases |steps|
  {
    if steps == [] then s
    else After(capacity, read, Fanned(capacity, read, s, steps[..|steps| - 1]), steps[|steps| - 1])
  }

  lemma {:induction false} OneMoreStep<K, V>(capacity: nat, read: K -> Read<V>, s: Fan<K, V>, steps: seq<Step<K, V>>,
                                             e: Step<K, V>)
    ensures Fanned(capacity, read, s, steps + [e]) == After(capacity, read, Fanned(capacity, read, s, steps), e)
  {
    assert (steps + [e])[..|steps|] == steps;
  }

  /** What enrichments elsewhere put is among `others`. */
  ghost predicate OnlyForeign<K, V>(steps: seq<Step<K, V>>, others: set<(K, V)>) {
    forall i | 0 <= i < |steps| :: steps[i].Other? ==> (steps[i].key, steps[i].value) in others
  }

  /** Reads under way: which wait to look in the cache, which ask the node, and the answers so far. */
  datatype Pending<K(==), V> = Pending(waiting: set<K>, asking: set<K>, results: seq<(K, V)>)

  ghost function AsFan<K, V>(cache: Content<K, V>, pending: Pending<K, V>, lost: bool): Fan<K, V> {
    Fan(cache, pending.waiting, pending.asking, pending.results, lost)
  }

  /** Any read takes its next step, or one fails. */
  method ReadOn<K(==), V>(cache: BoundedFifoMap<K, V>, read: K -> Read<V>, pending: Pending<K, V>)
    returns (next: Pending<K, V>, lost: bool, ghost step: Step<K, V>)
    requires cache.Valid() && (pending.waiting != {} || pending.asking != {})
    modifies cache
    ensures cache.Valid() && !step.Other?
    ensures After(cache.capacity, read, AsFan(old(cache.View()), pending, false), step) == AsFan(cache.View(), next, lost)
    ensures !lost ==> |next.waiting| < |pending.waiting| || (next.waiting == pending.waiting && |next.asking| < |pending.asking|)
  {
    next, lost := pending, false;
    var begin: bool := *;
    if pending.waiting != {} && (pending.asking == {} || begin) {
      var k :| k in pending.waiting;
      step := Begin(k);
      var known := cache.Get(k);
      next := pending.(waiting := pending.waiting - {k});
      if known.Some? {
        next := next.(results := pending.results + [(k, known.value)]);
      } else {
        next := next.(asking := pending.asking + {k});
      }
    } else {
      var k :| k in pending.asking;
      if * {
        lost, step := true, Lose;
      } else {
        step := Answer(k);
        next := pending.(asking := pending.asking - {k}, results := pending.results + [(k, read(k).value)]);
        if read(k).cacheable {
          cache.Put(k, read(k).value);
        }
      }
    }
  }

  /**
   Read every key through the cache, concurrently. Any read may take its next step next, any
   may fail, and between two steps enrichments elsewhere may put any number of answers.
   */
  method FanOut<K(==), V(==)>(cache: BoundedFifoMap<K, V>, keys: set<K>, read: K -> Read<V>, others: set<(K, V)>)
    returns (r: Result<seq<(K, V)>, string>, ghost steps: seq<Step<K, V>>)
    requires cache.Valid()
    modifies cache
    ensures cache.Valid() && OnlyForeign(steps, others)
    ensures var end := Fanned(cache.capacity, read, Start(old(cache.View()), keys), steps);
            && end.Ended() && end.cache == cache.View() && (end.lost <==> r.Err?)
            && (r.Ok? ==> r.value == end.results)
  {
    var pending: Pending<K, V> := Pending(keys, {}, []);
    var lost := false;
    ghost var start := Start(cache.View(), keys);
    steps := [];
    var meddling: nat := *;
    while !lost && (pending.waiting != {} || pending.asking != {})
      invariant cache.Valid() && OnlyForeign(steps, others)
      invariant Fanned(cache.capacity, read, start, steps) == AsFan(cache.View(), pending, lost)
      decreases !lost, |pending.waiting|, |pending.asking|, meddling
    {
      ghost var step: Step<K, V>;
      if meddling > 0 && others != {} {
        meddling := meddling - 1;
        var put :| put in others;
        step := Step.Other(put.0, put.1);
        cache.Put(put.0, put.1);
      } else {
        meddling := *;
        pending, lost, step := ReadOn(cache, read, pending);
      }
      OneMoreStep(cache.capacity, read, start, steps, step);
      steps := steps + [step];
    }
    r := if lost then Err("the node failed") else Ok(pending.results);
  }

  /** The results of a fan-out name each key once. */
  ghost predicate OncePerKey<K, V>(keys: set<K>, results: seq<(K, V)>) {
    && Distinct(results)
    && (forall i | 0 <= i < |results| :: results[i].0 in keys)
    && (forall k <- keys :: exists i :: 0 <= i < |results| && results[i].0 == k)
  }

  /** Each key once, with its uncached answer. */
  ghost predicate AnswersAll<K, V>(keys: set<K>, read: K -> Read<V>, results: seq<(K, V)>) {
    && OncePerKey(keys, results)
    && (forall i | 0 <= i < |results| :: results[i].1 == read(results[i].0).value)
  }

  lemma {:induction false} OnceMore<K, V>(done: set<K>, results: seq<(K, V)>, k: K, v: V)
    requires OncePerKey(done, results) && k !in done
    ensures OncePerKey(done + {k}, results + [(k, v)])
  {
    var more := results + [(k, v)];
    assert more[|results|].0 == k;
    assert forall i | 0 <= i < |results| :: more[i] == results[i];
    forall x <- done
      ensures exists i :: 0 <= i < |more| && more[i].0 == x
    {
      var i :| 0 <= i < |results| && results[i].0 == x;
      assert more[i].0 == x;
    }
  }

  lemma {:induction false} AnswerOne<K, V>(done: set<K>, read: K -> Read<V>, results: seq<(K, V)>, k: K)
    requires AnswersAll(done, read, results) && k !in done
    ensures AnswersAll(done + {k}, read, results + [(k, read(k).value)])
  {
    OnceMore(done, results, k, read(k).value);
  }

  /** Every key is waiting to be looked up, asked for at the node, or done. */
  ghost predicate InProgress<K>(keys: set<K>, waiting: set<K>, asking: set<K>, done: set<K>) {
    && (forall k <- keys :: k in waiting || k in asking || k in done)
    && (forall k <- waiting :: k in keys && k !in asking && k !in done)
    && (forall k <- asking :: k in keys && k !in waiting && k !in done)
    && (forall k <- done :: k in keys)
  }

  lemma {:induction false} AllDone<K>(keys: set<K>, done: set<K>)
    requires InProgress(keys, {}, {}, done)
    ensures done == keys
  {}

  /** Read every key with no cache, the answers in any order; any read may fail. */
  method Ask<K(==), V>(keys: set<K>, read: K -> Read<V>) returns (r: Result<seq<(K, V)>, string>)
    ensures r.Ok? ==> AnswersAll(keys, read, r.value)
    ensures r.Err? ==> keys != {}
  {
    var asking := keys;
    ghost var done: set<K> := {};
    var results: seq<(K, V)> := [];
    while asking != {}
      invariant InProgress(keys, {}, asking, done)
      invariant AnswersAll(done, read, results)
    {
      var k :| k in asking;
      if * {
        return Err("the node failed");
      }
      AnswerOne(done, read, results, k);
      asking, results, done := asking - {k}, results + [(k, read(k).value)], done + {k};
    }
    AllDone(keys, done);
    return Ok(results);
  }

  /** The keys of the first results. */
  ghost function KeysOf<K, V>(results: seq<(K, V)>, n: nat): set<K>
    requires n <= |results|
  {
    if n == 0 then {} else KeysOf(results, n - 1) + {results[n - 1].0}
  }

  lemma {:induction false} KeysOfAre<K, V>(results: seq<(K, V)>, n: nat)
    requires n <= |results|
    ensures KeysOf(results, n) == set i | 0 <= i < n :: results[i].0
    decreases n
  {
    if n > 0 { KeysOfAre(results, n - 1); }
  }

  lemma {:induction false} EveryKey<K, V>(keys: set<K>, results: seq<(K, V)>)
    requires OncePerKey(keys, results)
    ensures KeysOf(results, |results|) == keys
  {
    KeysOfAre(results, |results|);
  }

  ghost predicate Distinct<K, V>(results: seq<(K, V)>) {
    forall i, j | 0 <= i < j < |results| :: results[i].0 != results[j].0
  }

  lemma {:induction false} NextIsNew<K, V>(results: seq<(K, V)>, n: nat)
    requires Distinct(results) && n < |results|
    ensures results[n].0 !in KeysOf(results, n)
  {
    KeysOfAre(results, n);
  }

  /** A block's pools with the first results folded in. */
  ghost function FoldPools(emitters: set<Address>, results: seq<(Address, PoolIdentity)>, n: nat)
    : (map<Address, (Address, Address)>, set<Address>, nat)
    requires n <= |results|
  {
    if n == 0 then (map[], emitters, 0) else
    var (poolTokens, tokens, unverified) := FoldPools(emitters, results, n - 1);
    match results[n - 1].1
    case Verified(token0, token1) => (poolTokens[results[n - 1].0 := (token0, token1)], tokens + {token0, token1}, unverified)
    case Unverified => (poolTokens, tokens, unverified + 1)
  }

  method CollectPools(emitters: set<Address>, results: seq<(Address, PoolIdentity)>)
    returns (poolTokens: map<Address, (Address, Address)>, tokens: set<Address>, unverified: nat)
    ensures (poolTokens, tokens, unverified) == FoldPools(emitters, results, |results|)
  {
    poolTokens, tokens, unverified := map[], emitters, 0;
    for i := 0 to |results|
      invariant (poolTokens, tokens, unverified) == FoldPools(emitters, results, i)
    {
      match results[i].1
      case Verified(token0, token1) =>
        poolTokens, tokens := poolTokens[results[i].0 := (token0, token1)], tokens + {token0, token1};
      case Unverified =>
        unverified := unverified + 1;
    }
  }

  /** In whatever order the results came. */
  lemma {:induction false} PoolsFolded(node: Node, config: Config, at: nat, emitters: set<Address>,
                                       results: seq<(Address, PoolIdentity)>, n: nat)
    requires n <= |results| && Distinct(results)
    requires forall i | 0 <= i < |results| :: results[i].1 == ReadIdentity(node, config, results[i].0, at).value
    ensures var pt := PoolTokens(node, config, at, KeysOf(results, n));
            FoldPools(emitters, results, n)
            == (pt, Touched(emitters, pt), |UnverifiedPools(node, config, at, KeysOf(results, n))|)
    decreases n
  {
    if n > 0 {
      PoolsFolded(node, config, at, emitters, results, n - 1);
      NextIsNew(results, n - 1);
      PoolStep(node, config, at, KeysOf(results, n - 1), emitters, results[n - 1].0);
    } else {
      assert PoolTokens(node, config, at, {}) == map[] && UnverifiedPools(node, config, at, {}) == {};
      assert Touched(emitters, map[]) == emitters;
    }
  }

  lemma {:induction false} TouchedGrows(emitters: set<Address>, poolTokens: map<Address, (Address, Address)>,
                                        p: Address,
                                        pair: (Address, Address))
    requires p !in poolTokens
    ensures Touched(emitters, poolTokens[p := pair]) == Touched(emitters, poolTokens) + {pair.0, pair.1}
  {
    var more := poolTokens[p := pair];
    assert more[p] == pair;
    assert forall q <- poolTokens :: more[q] == poolTokens[q] && q in more;
  }

  lemma {:induction false} PoolStep(node: Node, config: Config, at: nat, done: set<Address>, emitters: set<Address>,
                                    p: Address)
    requires p !in done
    ensures var before, after := PoolTokens(node, config, at, done), PoolTokens(node, config, at, done + {p});
            var refused := UnverifiedPools(node, config, at, done);
            match ReadIdentity(node, config, p, at).value
            case Verified(token0, token1) =>
              && after == before[p := (token0, token1)]
              && Touched(emitters, after) == Touched(emitters, before) + {token0, token1}
              && UnverifiedPools(node, config, at, done + {p}) == refused
            case Unverified =>
              && after == before
              && |UnverifiedPools(node, config, at, done + {p})| == |refused| + 1
  {
    var refused := UnverifiedPools(node, config, at, done);
    if ReadIdentity(node, config, p, at).value.Unverified? {
      assert UnverifiedPools(node, config, at, done + {p}) == refused + {p};
    } else {
      assert UnverifiedPools(node, config, at, done + {p}) == refused;
      var v := ReadIdentity(node, config, p, at).value;
      TouchedGrows(emitters, PoolTokens(node, config, at, done), p, (v.token0, v.token1));
    }
  }

  /** Reserves before a block with the first results folded in. */
  ghost function FoldStates(results: seq<(Address, Option<PoolState>)>, n: nat): (map<Address, PoolState>, nat)
    requires n <= |results|
  {
    if n == 0 then (map[], 0) else
    var (states, without) := FoldStates(results, n - 1);
    match results[n - 1].1
    case Some(state) => (states[state.address := state], without)
    case None => (states, without + 1)
  }

  method CollectStates(results: seq<(Address, Option<PoolState>)>)
    returns (states: map<Address, PoolState>, without: nat)
    ensures (states, without) == FoldStates(results, |results|)
  {
    states, without := map[], 0;
    for i := 0 to |results|
      invariant (states, without) == FoldStates(results, i)
    {
      match results[i].1
      case Some(state) => states := states[state.address := state];
      case None => without := without + 1;
    }
  }

  lemma {:induction false} StatesFolded(node: Node, poolTokens: map<Address, (Address, Address)>, before: nat,
                                        results: seq<(Address, Option<PoolState>)>, n: nat)
    requires n <= |results| && Distinct(results)
    requires forall i | 0 <= i < |results| :: results[i].1 == Reserves(node, poolTokens, before, results[i].0)
    ensures FoldStates(results, n) == (States(node, poolTokens, before, KeysOf(results, n)),
                                       |Stateless(node, poolTokens, before, KeysOf(results, n))|)
    decreases n
  {
    if n > 0 {
      StatesFolded(node, poolTokens, before, results, n - 1);
      NextIsNew(results, n - 1);
      StateStep(node, poolTokens, before, KeysOf(results, n - 1), results[n - 1].0);
    }
  }

  lemma {:induction false} StateStep(node: Node, poolTokens: map<Address, (Address, Address)>, before: nat,
                                     done: set<Address>, p: Address)
    requires p !in done
    ensures match Reserves(node, poolTokens, before, p)
            case Some(state) =>
              && States(node, poolTokens, before, done + {p}) == States(node, poolTokens, before, done)[state.address := state]
              && Stateless(node, poolTokens, before, done + {p}) == Stateless(node, poolTokens, before, done)
            case None =>
              && States(node, poolTokens, before, done + {p}) == States(node, poolTokens, before, done)
              && |Stateless(node, poolTokens, before, done + {p})| == |Stateless(node, poolTokens, before, done)| + 1
  {
    if Reserves(node, poolTokens, before, p).None? {
      assert Stateless(node, poolTokens, before, done + {p}) == Stateless(node, poolTokens, before, done) + {p};
    } else {
      assert Reserves(node, poolTokens, before, p).value.address == p;
    }
  }

  /** Token metadata with the first results folded in. */
  ghost function FoldMetas(results: seq<(Address, Option<TokenMeta>)>, n: nat): (map<Address, TokenMeta>, nat)
    requires n <= |results|
  {
    if n == 0 then (map[], 0) else
    var (metas, refused) := FoldMetas(results, n - 1);
    match results[n - 1].1
    case Some(meta) => (metas[results[n - 1].0 := meta], refused)
    case None => (metas, refused + 1)
  }

  method CollectMetas(results: seq<(Address, Option<TokenMeta>)>) returns (metas: map<Address, TokenMeta>, refused: nat)
    ensures (metas, refused) == FoldMetas(results, |results|)
  {
    metas, refused := map[], 0;
    for i := 0 to |results|
      invariant (metas, refused) == FoldMetas(results, i)
    {
      match results[i].1
      case Some(meta) => metas := metas[results[i].0 := meta];
      case None => refused := refused + 1;
    }
  }

  lemma {:induction false} MetasFolded(node: Node, config: Config, at: nat,
                                       results: seq<(Address, Option<TokenMeta>)>, n: nat)
    requires n <= |results| && Distinct(results)
    requires forall i | 0 <= i < |results| :: results[i].1 == ReadMeta(node, config, results[i].0, at).value
    ensures FoldMetas(results, n)
         == (Metas(node, config, at, KeysOf(results, n)), |NotErc20(node, config, at, KeysOf(results, n))|)
    decreases n
  {
    if n > 0 {
      MetasFolded(node, config, at, results, n - 1);
      NextIsNew(results, n - 1);
      MetaStep(node, config, at, KeysOf(results, n - 1), results[n - 1].0);
    }
  }

  lemma {:induction false} MetaStep(node: Node, config: Config, at: nat, done: set<Address>, t: Address)
    requires t !in done
    ensures match ReadMeta(node, config, t, at).value
            case Some(meta) =>
              && Metas(node, config, at, done + {t}) == Metas(node, config, at, done)[t := meta]
              && NotErc20(node, config, at, done + {t}) == NotErc20(node, config, at, done)
            case None =>
              && Metas(node, config, at, done + {t}) == Metas(node, config, at, done)
              && |NotErc20(node, config, at, done + {t})| == |NotErc20(node, config, at, done)| + 1
  {
    if ReadMeta(node, config, t, at).value.None? {
      assert NotErc20(node, config, at, done + {t}) == NotErc20(node, config, at, done) + {t};
    }
  }

  /** Prices with the first results folded in. */
  ghost function FoldPrices(results: seq<(Address, PriceRead)>, n: nat): (map<Address, real>, nat, nat)
    requires n <= |results|
  {
    if n == 0 then (map[], 0, 0) else
    var (prices, stale, invalid) := FoldPrices(results, n - 1);
    match results[n - 1].1
    case Price(usd) => (prices[results[n - 1].0 := usd], stale, invalid)
    case Stale => (prices, stale + 1, invalid)
    case Invalid => (prices, stale, invalid + 1)
  }

  method CollectPrices(results: seq<(Address, PriceRead)>)
    returns (prices: map<Address, real>, stale: nat, invalid: nat)
    ensures (prices, stale, invalid) == FoldPrices(results, |results|)
  {
    prices, stale, invalid := map[], 0, 0;
    for i := 0 to |results|
      invariant (prices, stale, invalid) == FoldPrices(results, i)
    {
      match results[i].1
      case Price(usd) => prices := prices[results[i].0 := usd];
      case Stale => stale := stale + 1;
      case Invalid => invalid := invalid + 1;
    }
  }

  lemma {:induction false} PricesFolded(node: Node, config: Config, block: RawBlock,
                                        results: seq<(Address, PriceRead)>, n: nat)
    requires n <= |results| && Distinct(results)
    requires forall i | 0 <= i < |results| :: PriceOf(node, config, block, results[i].0) == Some(results[i].1)
    ensures var keys := KeysOf(results, n);
            FoldPrices(results, n) == (Prices(node, config, block, keys), |PricedAs(node, config, block, keys, Stale)|,
                                       |PricedAs(node, config, block, keys, Invalid)|)
    decreases n
  {
    if n > 0 {
      PricesFolded(node, config, block, results, n - 1);
      NextIsNew(results, n - 1);
      PriceStep(node, config, block, KeysOf(results, n - 1), results[n - 1].0, results[n - 1].1);
    }
  }

  lemma {:induction false} PriceStep(node: Node, config: Config, block: RawBlock, done: set<Address>, t: Address,
                                     read: PriceRead)
    requires t !in done && PriceOf(node, config, block, t) == Some(read)
    ensures Prices(node, config, block, done + {t})
         == if read.Price? then Prices(node, config, block, done)[t := read.usd] else Prices(node, config, block, done)
    ensures |PricedAs(node, config, block, done + {t}, Stale)|
         == |PricedAs(node, config, block, done, Stale)| + if read == Stale then 1 else 0
    ensures |PricedAs(node, config, block, done + {t}, Invalid)|
         == |PricedAs(node, config, block, done, Invalid)| + if read == Invalid then 1 else 0
  {
    PricedAsStep(node, config, block, done, t, read, Stale);
    PricedAsStep(node, config, block, done, t, read, Invalid);
  }

  lemma {:induction false} PricedAsStep(node: Node, config: Config, block: RawBlock, done: set<Address>, t: Address,
                                        read: PriceRead, counted: PriceRead)
    requires t !in done && PriceOf(node, config, block, t) == Some(read)
    ensures |PricedAs(node, config, block, done + {t}, counted)|
         == |PricedAs(node, config, block, done, counted)| + if read == counted then 1 else 0
  {
    var before := PricedAs(node, config, block, done, counted);
    assert PricedAs(node, config, block, done + {t}, counted) == if read == counted then before + {t} else before;
  }

  ghost function Priced(config: Config, tokens: set<Address>): set<Address> {
    set t | t in tokens && FeedFor(config.feeds, t).Some?
  }

  /** Tokens no feed is configured for have no price and no bad price. */
  lemma {:induction false} OnlyPricedTokens(node: Node, config: Config, block: RawBlock, tokens: set<Address>)
    ensures Prices(node, config, block, tokens) == Prices(node, config, block, Priced(config, tokens))
    ensures forall read :: PricedAs(node, config, block, tokens, read) == PricedAs(node, config, block, Priced(config, tokens), read)
  {
    assert Prices(node, config, block, tokens).Keys == Prices(node, config, block, Priced(config, tokens)).Keys;
  }

  // ----- The enricher -----

  /** A result that, if the reads succeeded, is the one read with no cache at all. */
  ghost predicate Uncached(node: Node, config: Config, block: RawBlock, needs: Needs, r: FactsRead) {
    r.Ok? ==> r.value == (Facts(node, config, block, needs), ReportOf(node, config, block, needs))
  }

  type FactsRead = Result<(BlockFacts, Report), string>

  // ----- The enrichment of a block -----

  datatype Setup = Setup(node: Node, config: Config, tokenCap: nat, poolCap: nat)

  type Block = (RawBlock, Needs)

  datatype Caches = Caches(tokens: Content<Address, Option<TokenMeta>>, pools: Content<Address, PoolIdentity>)

  /** What enrichments elsewhere may put. */
  datatype Foreign = Foreign(tokens: set<(Address, Option<TokenMeta>)>, pools: set<(Address, PoolIdentity)>)

  /** How the reads of one block went: the two cached fan-outs, and whether the other two came back. */
  datatype Schedule = Schedule(
    pools: seq<Step<Address, PoolIdentity>>, reserves: bool, tokens: seq<Step<Address, Option<TokenMeta>>>, prices: bool)

  function PoolRead(s: Setup, b: Block): Address -> Read<PoolIdentity> {
    (p: Address) => ReadIdentity(s.node, s.config, p, b.0.hash)
  }

  function MetaRead(s: Setup, b: Block): Address -> Read<Option<TokenMeta>> {
    (t: Address) => ReadMeta(s.node, s.config, t, b.0.hash)
  }

  /** The facts and the report out of what the fan-outs came back with. */
  ghost function Gathered(s: Setup, b: Block, poolTokens: map<Address, (Address, Address)>, touched: set<Address>,
                          unverified: nat, metadata: seq<(Address, Option<TokenMeta>)>): (BlockFacts, Report)
  {
    var (metas, refused) := FoldMetas(metadata, |metadata|);
    (BlockFacts(metas, poolTokens, States(s.node, poolTokens, b.0.parentHash, poolTokens.Keys),
                Prices(s.node, s.config, b.0, touched)),
     Report(refused, unverified, |Stateless(s.node, poolTokens, b.0.parentHash, poolTokens.Keys)|,
            |PricedAs(s.node, s.config, b.0, touched, Stale)|, |PricedAs(s.node, s.config, b.0, touched, Invalid)|))
  }

  ghost function PoolFan(s: Setup, b: Block, from: Caches, how: Schedule): Fan<Address, PoolIdentity> {
    Fanned(s.poolCap, PoolRead(s, b), Start(from.pools, b.1.pools), how.pools)
  }

  ghost function TokenFan(s: Setup, b: Block, from: Caches, touched: set<Address>, how: Schedule): Fan<Address,
                          Option<TokenMeta>> {
    Fanned(s.tokenCap, MetaRead(s, b), Start(from.tokens, touched), how.tokens)
  }

  /** From known pools on: the reserves, the tokens' metadata, the prices. */
  ghost predicate EnrichedFrom(s: Setup, b: Block, from: Caches, pools: seq<(Address, PoolIdentity)>, how: Schedule,
                               to: Caches, r: FactsRead)
  {
    var (poolTokens, touched, unverified) := FoldPools(b.1.tokens, pools, |pools|);
    var tokens := TokenFan(s, b, from, touched, how);
    if !how.reserves then poolTokens != map[] && to.tokens == from.tokens && r.Err?
    else
      && tokens.Ended() && to.tokens == tokens.cache
      && if tokens.lost then r.Err?
         else if !how.prices then Priced(s.config, touched) != {} && r.Err?
         else r == Ok(Gathered(s, b, poolTokens, touched, unverified, tokens.results))
  }

  /** One block is read: the caches before and after, and what is returned. */
  ghost predicate Enriched(s: Setup, others: Foreign, b: Block, from: Caches, how: Schedule, to: Caches, r: FactsRead) {
    var pools := PoolFan(s, b, from, how);
    && OnlyForeign(how.pools, others.pools) && OnlyForeign(how.tokens, others.tokens)
    && pools.Ended() && to.pools == pools.cache
    && if pools.lost then to.tokens == from.tokens && r.Err?
       else EnrichedFrom(s, b, from, pools.results, how, to, r)
  }

  /** One block of a history: the caches it found and left, and what it returned. */
  datatype Turn = Turn(before: Caches, how: Schedule, after: Caches, result: FactsRead)

  const EMPTY: Caches := Caches(Content(map[], []), Content(map[], []))

  ghost function IsTurn(s: Setup, others: Foreign): (Block, Turn) -> bool {
    (b: Block, t: Turn) => Enriched(s, others, b, t.before, t.how, t.after, t.result)
  }

  /** Each turn is right for its own block. */
  ghost predicate Each<A, B>(inputs: seq<A>, results: seq<B>, right: (A, B) -> bool) {
    |results| <= |inputs| && forall i {:trigger right(inputs[i], results[i])} | 0 <= i < |results| :: right(inputs[i], results[i])
  }

  /** The caches the block at a position finds. */
  ghost function Found(from: Caches, turns: seq<Turn>, i: nat): Caches
    requires i <= |turns|
  {
    if i == 0 then from else turns[i - 1].after
  }

  ghost predicate Linked(from: Caches, turns: seq<Turn>) {
    forall i {:trigger Found(from, turns, i)} | 0 <= i < |turns| :: turns[i].before == Found(from, turns, i)
  }

  /** The first blocks of a history, read one after another. */
  ghost predicate Executes(s: Setup, others: Foreign, blocks: seq<Block>, from: Caches, turns: seq<Turn>) {
    Linked(from, turns) && Each(blocks, turns, IsTurn(s, others))
  }

  lemma {:induction false} OneMore<A, B>(inputs: seq<A>, results: seq<B>, right: (A, B) -> bool, r: B)
    requires Each(inputs, results, right) && |results| < |inputs| && right(inputs[|results|], r)
    ensures Each(inputs, results + [r], right)
  {}

  lemma {:induction false} LinkMore(from: Caches, turns: seq<Turn>, t: Turn)
    requires Linked(from, turns) && t.before == Found(from, turns, |turns|)
    ensures Linked(from, turns + [t]) && Found(from, turns + [t], |turns| + 1) == t.after
  {
    var more := turns + [t];
    forall i | 0 <= i < |more| ensures more[i].before == Found(from, more, i) {
      assert Found(from, more, i) == Found(from, turns, i);
    }
  }

  lemma {:induction false} OneMoreTurn(s: Setup, others: Foreign, blocks: seq<Block>, from: Caches, turns: seq<Turn>,
                                       t: Turn)
    requires Executes(s, others, blocks, from, turns) && |turns| < |blocks| && t.before == Found(from, turns, |turns|)
    requires Enriched(s, others, blocks[|turns|], t.before, t.how, t.after, t.result)
    ensures Executes(s, others, blocks, from, turns + [t]) && Found(from, turns + [t], |turns| + 1) == t.after
  {
    LinkMore(from, turns, t);
    OneMore(blocks, turns, IsTurn(s, others), t);
  }

  class Enricher {
    const node: Node
    const config: Config
    const tokens: BoundedFifoMap<Address, Option<TokenMeta>>
    const pools: BoundedFifoMap<Address, PoolIdentity>

    ghost predicate Valid()
      reads this, tokens, pools
    {
      tokens.Valid() && pools.Valid()
    }

    function Setting(): Setup {
      Setup(node, config, tokens.capacity, pools.capacity)
    }

    ghost function View(): Caches
      reads this, tokens, pools
    {
      Caches(tokens.View(), pools.View())
    }

    constructor (node: Node, config: Config, tokenCache: nat, poolCache: nat)
      ensures this.node == node && this.config == config
      ensures tokens.capacity == tokenCache && pools.capacity == poolCache
      ensures fresh(tokens) && fresh(pools) && Valid() && View() == EMPTY
    {
      this.node, this.config := node, config;
      tokens := new BoundedFifoMap(tokenCache);
      pools := new BoundedFifoMap(poolCache);
    }

    /** The reserves verified pools held before a block. */
    method ReadStates(before: nat, poolTokens: map<Address, (Address, Address)>)
      returns (r: Result<(map<Address, PoolState>, nat), string>)
      ensures r.Err? ==> poolTokens != map[]
      ensures r.Ok? ==> r.value == (States(node, poolTokens, before, poolTokens.Keys),
                                    |Stateless(node, poolTokens, before, poolTokens.Keys)|)
    {
      var reserves :- Ask(poolTokens.Keys, p => Read(Reserves(node, poolTokens, before, p), false));
      var states, without := CollectStates(reserves);
      EveryKey(poolTokens.Keys, reserves);
      StatesFolded(node, poolTokens, before, reserves, |reserves|);
      return Ok((states, without));
    }

    /** The prices of the touched tokens that have a feed. */
    method ReadPrices(block: RawBlock, touched: set<Address>)
      returns (r: Result<(map<Address, real>, nat, nat), string>)
      ensures r.Err? ==> Priced(config, touched) != {}
      ensures r.Ok? ==> r.value == (Prices(node, config, block, touched), |PricedAs(node, config, block, touched, Stale)|,
                                    |PricedAs(node, config, block, touched, Invalid)|)
    {
      var priced := set t | t in touched && FeedFor(config.feeds, t).Some?;
      var answers :- Ask(priced, t => Read(PriceOr(node, config, block, t), false));
      var prices, stale, invalid := CollectPrices(answers);
      EveryKey(priced, answers);
      PricesFolded(node, config, block, answers, |answers|);
      OnlyPricedTokens(node, config, block, touched);
      return Ok((prices, stale, invalid));
    }

    /** The facts of one block, and what was missing or refused, from known pools on. */
    method ReadFrom(b: Block, identities: seq<(Address, PoolIdentity)>, others: Foreign,
                    ghost steps: seq<Step<Address, PoolIdentity>>)
      returns (r: FactsRead, ghost how: Schedule)
      requires Valid()
      modifies tokens
      ensures Valid() && how.pools == steps && OnlyForeign(how.tokens, others.tokens)
      ensures EnrichedFrom(Setting(), b, old(View()), identities, how, View(), r)
    {
      var (block, needs) := b;
      how := Schedule(steps, false, [], false);
      var poolTokens, touched, unverified := CollectPools(needs.tokens, identities);
      var reserves := ReadStates(block.parentHash, poolTokens);
      if reserves.Err? {
        return Err("the node failed"), how;
      }
      how := how.(reserves := true);
      var metadata, tokenSteps := FanOut(tokens, touched, MetaRead(Setting(), b), others.tokens);
      how := how.(tokens := tokenSteps);
      if metadata.Err? {
        return Err("the node failed"), how;
      }
      var metas, refused := CollectMetas(metadata.value);
      var prices := ReadPrices(block, touched);
      if prices.Err? {
        return Err("the node failed"), how;
      }
      how := how.(prices := true);
      return Ok((BlockFacts(metas, poolTokens, reserves.value.0, prices.value.0),
                 Report(refused, unverified, reserves.value.1, prices.value.1, prices.value.2))), how;
    }

    /** The facts of one block, and what was missing or refused. */
    method ReadFacts(b: Block, others: Foreign) returns (r: FactsRead, ghost how: Schedule)
      requires Valid()
      modifies tokens, pools
      ensures Valid() && Enriched(Setting(), others, b, old(View()), how, View(), r)
    {
      var identities, steps := FanOut(pools, b.1.pools, PoolRead(Setting(), b), others.pools);
      if identities.Err? {
        return Err("the node failed"), Schedule(steps, false, [], false);
      }
      r, how := ReadFrom(b, identities.value, others, steps);
    }

    /** A whole history of blocks, one after another. */
    method ReadHistory(blocks: seq<Block>, others: Foreign) returns (rs: seq<FactsRead>, ghost turns: seq<Turn>)
      requires Valid()
      modifies tokens, pools
      ensures Valid() && Executes(Setting(), others, blocks, old(View()), turns)
      ensures |rs| == |turns| == |blocks| && forall i | 0 <= i < |blocks| :: rs[i] == turns[i].result
    {
      rs, turns := [], [];
      for i := 0 to |blocks|
        invariant Valid() && |rs| == |turns| == i && View() == Found(old(View()), turns, i)
        invariant Executes(Setting(), others, blocks, old(View()), turns)
        invariant forall j | 0 <= j < i :: rs[j] == turns[j].result
      {
        ghost var before := View();
        var r, how := ReadFacts(blocks[i], others);
        OneMoreTurn(Setting(), others, blocks, old(View()), turns, Turn(before, how, View(), r));
        rs, turns := rs + [r], turns + [Turn(before, how, View(), r)];
      }
    }
  }
}
