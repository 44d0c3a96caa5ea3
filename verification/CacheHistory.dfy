/**
 What the two caches do to the facts of a history of blocks: when every execution of it
 returns what uncached reads give, and how one that does not comes about.
 */
module CacheHistory {
  import opened Common
  import opened Abi
  import opened BoundedMap
  import opened Decode
  import opened Enricher

  // ----- Answers that may be remembered -----

  /** What reads of these keys may leave in a cache. */
  ghost function Rememberable<K, V>(keys: set<K>, read: K -> Read<V>): set<(K, V)> {
    set k | k in keys && read(k).cacheable :: (k, read(k).value)
  }

  /** Every answer in the cache is one of these. */
  ghost predicate Holds<K, V>(entries: map<K, V>, may: set<(K, V)>) {
    forall k <- entries :: (k, entries[k]) in may
  }

  /** No answer that may be remembered for one of these keys differs from the key's own. */
  ghost predicate Trusted<K, V>(may: set<(K, V)>, keys: set<K>, read: K -> Read<V>) {
    forall a <- may :: a.0 in keys ==> a.1 == read(a.0).value
  }

  lemma {:induction false} EvictedIsFewer<K, V>(capacity: nat, s: Content<K, V>)
    ensures forall k <- Evicted(capacity, s).entries ::
              k in s.entries && Evicted(capacity, s).entries[k] == s.entries[k]
    decreases |s.order|
  {
    if !(capacity == 0 || |s.entries| < capacity || s.order == []) && s.order[0] !in s.entries {
      EvictedIsFewer(capacity, s.(order := s.order[1..]));
    }
  }

  lemma {:induction false} PutHolds<K, V>(capacity: nat, s: Content<K, V>, k: K, v: V, may: set<(K, V)>)
    requires Holds(s.entries, may) && (k, v) in may
    ensures Holds(AfterPut(capacity, s, k, v).entries, may)
    ensures k in AfterPut(capacity, s, k, v).entries && AfterPut(capacity, s, k, v).entries[k] == v
  {
    EvictedIsFewer(capacity, s);
  }

  // ----- Fan-outs -----

  /** The keys a fan-out has an answer for. */
  ghost function Answered<K, V>(keys: set<K>, s: Fan<K, V>): set<K> {
    keys - s.waiting - s.asking
  }

  /** Each key is waiting, asked for, or answered once. */
  ghost predicate WellFormed<K, V>(keys: set<K>, s: Fan<K, V>) {
    s.waiting <= keys && s.asking <= keys && s.waiting !! s.asking && OncePerKey(Answered(keys, s), s.results)
  }

  /** ... with its own answer, and the cache holds nothing but what may be remembered. */
  ghost predicate Sound<K, V>(keys: set<K>, read: K -> Read<V>, may: set<(K, V)>, s: Fan<K, V>) {
    && WellFormed(keys, s) && Holds(s.cache.entries, may)
    && forall i | 0 <= i < |s.results| :: s.results[i].1 == read(s.results[i].0).value
  }

  lemma {:induction false} StepKeepsForm<K, V>(capacity: nat, keys: set<K>, read: K -> Read<V>, s: Fan<K, V>,
                                               e: Step<K, V>)
    requires WellFormed(keys, s)
    ensures WellFormed(keys, After(capacity, read, s, e))
  {
    var t := After(capacity, read, s, e);
    if t.results != s.results {
      var k := e.key;
      OnceMore(Answered(keys, s), s.results, k, t.results[|s.results|].1);
      assert Answered(keys, t) == Answered(keys, s) + {k};
    } else {
      assert Answered(keys, t) == Answered(keys, s);
    }
  }

  lemma {:induction false} StepKeepsSound<K, V>(capacity: nat, keys: set<K>, read: K -> Read<V>, may: set<(K, V)>,
                                                s: Fan<K, V>, e: Step<K, V>)
    requires Sound(keys, read, may, s) && Trusted(may, keys, read) && Rememberable(keys, read) <= may
    requires e.Other? ==> (e.key, e.value) in may
    ensures Sound(keys, read, may, After(capacity, read, s, e))
  {
    StepKeepsForm(capacity, keys, read, s, e);
    match e
    case Begin(k) =>
      if k in s.cache.entries { assert (k, s.cache.entries[k]) in may; }
    case Answer(k) =>
      if k in s.asking && read(k).cacheable {
        assert (k, read(k).value) in Rememberable(keys, read);
        PutHolds(capacity, s.cache, k, read(k).value, may);
      }
    case Lose =>
    case Other(k, v) => PutHolds(capacity, s.cache, k, v, may);
  }

  /** However a trusted fan-out goes, its answers are the uncached ones. */
  lemma {:induction false} FanIsSound<K, V>(capacity: nat, keys: set<K>, read: K -> Read<V>, may: set<(K, V)>,
                                            s: Fan<K, V>, steps: seq<Step<K, V>>)
    requires Sound(keys, read, may, s) && Trusted(may, keys, read) && Rememberable(keys, read) <= may
    requires OnlyForeign(steps, may)
    ensures Sound(keys, read, may, Fanned(capacity, read, s, steps))
    decreases |steps|
  {
    if steps != [] {
      var front := steps[..|steps| - 1];
      FanIsSound(capacity, keys, read, may, s, front);
      StepKeepsSound(capacity, keys, read, may, Fanned(capacity, read, s, front), steps[|steps| - 1]);
    }
  }

  lemma {:induction false} FanKeepsForm<K, V>(capacity: nat, keys: set<K>, read: K -> Read<V>, s: Fan<K, V>,
                                              steps: seq<Step<K, V>>)
    requires WellFormed(keys, s)
    ensures WellFormed(keys, Fanned(capacity, read, s, steps))
    decreases |steps|
  {
    if steps != [] {
      var front := steps[..|steps| - 1];
      FanKeepsForm(capacity, keys, read, s, front);
      StepKeepsForm(capacity, keys, read, Fanned(capacity, read, s, front), steps[|steps| - 1]);
    }
  }

  lemma {:induction false} FannedAppend<K, V>(capacity: nat, read: K -> Read<V>, s: Fan<K, V>,
                                              first: seq<Step<K, V>>, rest: seq<Step<K, V>>)
    ensures Fanned(capacity, read, s, first + rest) == Fanned(capacity, read, Fanned(capacity, read, s, first), rest)
    decreases |rest|
  {
    if rest == [] {
      assert first + rest == first;
    } else {
      var n := |rest| - 1;
      assert (first + rest)[..|first + rest| - 1] == first + rest[..n];
      FannedAppend(capacity, read, s, first, rest[..n]);
    }
  }

  lemma {:induction false} StepFirst<K, V>(capacity: nat, read: K -> Read<V>, s: Fan<K, V>, e: Step<K, V>,
                                           rest: seq<Step<K, V>>)
    ensures Fanned(capacity, read, s, [e] + rest) == Fanned(capacity, read, After(capacity, read, s, e), rest)
  {
    FannedAppend(capacity, read, s, [e], rest);
    OneMoreStep(capacity, read, s, [], e);
    assert [] + [e] == [e];
  }

  ghost predicate OwnSteps<K, V>(steps: seq<Step<K, V>>) {
    forall i | 0 <= i < |steps| :: !steps[i].Other?
  }

  /** Every read comes back, and nothing else happens meanwhile. */
  lemma {:induction false} Completes<K, V>(capacity: nat, read: K -> Read<V>, s: Fan<K, V>)
    returns (steps: seq<Step<K, V>>)
    requires !s.lost
    ensures OwnSteps(steps)
    ensures var end := Fanned(capacity, read, s, steps);
            end.Ended() && !end.lost && s.results <= end.results
    decreases s.waiting, s.asking
  {
    if s.waiting == {} && s.asking == {} {
      steps := [];
    } else {
      var e: Step<K, V>;
      if k :| k in s.waiting { e := Begin(k); } else { var k :| k in s.asking; e := Answer(k); }
      var rest := Completes(capacity, read, After(capacity, read, s, e));
      StepFirst(capacity, read, s, e, rest);
      steps := [e] + rest;
    }
  }

  /** Reads only look: the first that misses fails, so that the cache stays as it is. */
  lemma {:induction false} OnlyLooks<K, V>(capacity: nat, read: K -> Read<V>, s: Fan<K, V>)
    returns (steps: seq<Step<K, V>>)
    requires !s.lost && s.asking == {}
    ensures OwnSteps(steps)
    ensures var end := Fanned(capacity, read, s, steps);
            end.Ended() && end.cache == s.cache && s.results <= end.results
    decreases s.waiting
  {
    if s.waiting == {} {
      steps := [];
    } else {
      var k :| k in s.waiting;
      var next := After(capacity, read, s, Begin(k));
      var rest: seq<Step<K, V>>;
      if next.asking == {} {
        rest := OnlyLooks(capacity, read, next);
      } else {
        rest := [Lose];
        OneMoreStep(capacity, read, next, [], Lose);
        assert [] + rest == rest;
      }
      StepFirst(capacity, read, s, Begin(k), rest);
      steps := [Begin(k)] + rest;
    }
  }

  /** A key in the cache is looked up before any read puts anything. */
  lemma {:induction false} AnswersFromCache<K, V>(capacity: nat, read: K -> Read<V>, s: Fan<K, V>, k: K)
    returns (steps: seq<Step<K, V>>)
    requires !s.lost && k in s.waiting && k in s.cache.entries && s.results == []
    ensures OwnSteps(steps)
    ensures var end := Fanned(capacity, read, s, steps);
            end.Ended() && !end.lost && end.results != [] && end.results[0] == (k, s.cache.entries[k])
  {
    var next := After(capacity, read, s, Begin(k));
    var rest := Completes(capacity, read, next);
    StepFirst(capacity, read, s, Begin(k), rest);
    steps := [Begin(k)] + rest;
  }

  /** A key is read and put, and nothing after it is. */
  lemma {:induction false} LeavesAnswer<K, V>(capacity: nat, read: K -> Read<V>, s: Fan<K, V>, k: K)
    returns (steps: seq<Step<K, V>>)
    requires !s.lost && s.asking == {} && k in s.waiting && s.cache == Content(map[], []) && read(k).cacheable
    ensures OwnSteps(steps)
    ensures var end := Fanned(capacity, read, s, steps);
            end.Ended() && end.cache.entries == map[k := read(k).value]
  {
    var asked := After(capacity, read, s, Begin(k));
    var put := After(capacity, read, asked, Answer(k));
    assert put.cache.entries == map[k := read(k).value];
    assert asked.asking == {k} && put.asking == {};
    var rest := OnlyLooks(capacity, read, put);
    StepFirst(capacity, read, asked, Answer(k), rest);
    StepFirst(capacity, read, s, Begin(k), [Answer(k)] + rest);
    steps := [Begin(k)] + ([Answer(k)] + rest);
  }

  lemma {:induction false} FreshFan<K, V>(cache: Content<K, V>, keys: set<K>)
    ensures WellFormed(keys, Start(cache, keys))
  {
    assert Answered(keys, Start(cache, keys)) == {};
  }

  lemma {:induction false} ForeignMore<K, V>(steps: seq<Step<K, V>>, others: set<(K, V)>, may: set<(K, V)>)
    requires OnlyForeign(steps, others) && others <= may
    ensures OnlyForeign(steps, may)
  {}

  /** A fan-out that came to its end over a trusted cache: every key once, with its uncached answer. */
  lemma {:induction false} FanAnswersAll<K, V>(capacity: nat, keys: set<K>, read: K -> Read<V>, may: set<(K, V)>,
                                               cache: Content<K, V>, steps: seq<Step<K, V>>)
    requires Holds(cache.entries, may) && Trusted(may, keys, read) && Rememberable(keys, read) <= may && OnlyForeign(steps, may)
    ensures var end := Fanned(capacity, read, Start(cache, keys), steps);
            Holds(end.cache.entries, may) && (end.Ended() && !end.lost ==> AnswersAll(keys, read, end.results))
  {
    FreshFan(cache, keys);
    FanIsSound(capacity, keys, read, may, Start(cache, keys), steps);
    var end := Fanned(capacity, read, Start(cache, keys), steps);
    if end.Ended() && !end.lost { assert Answered(keys, end) == keys; }
  }

  // ----- One block over trusted caches -----

  /** The tokens a block touches, by uncached reads. */
  ghost function TokensOf(s: Setup, b: Block): set<Address> {
    Touched(b.1.tokens, PoolTokens(s.node, s.config, b.0.hash, b.1.pools))
  }

  lemma {:induction false} PoolsFold(s: Setup, b: Block, results: seq<(Address, PoolIdentity)>)
    requires AnswersAll(b.1.pools, PoolRead(s, b), results)
    ensures FoldPools(b.1.tokens, results, |results|) ==
            (PoolTokens(s.node, s.config, b.0.hash, b.1.pools), TokensOf(s, b),
             |UnverifiedPools(s.node, s.config, b.0.hash, b.1.pools)|)
  {
    EveryKey(b.1.pools, results);
    PoolsFolded(s.node, s.config, b.0.hash, b.1.tokens, results, |results|);
  }

  lemma {:induction false} MetasFold(s: Setup, b: Block, touched: set<Address>,
                                     results: seq<(Address, Option<TokenMeta>)>)
    requires AnswersAll(touched, MetaRead(s, b), results)
    ensures FoldMetas(results, |results|)
         == (Metas(s.node, s.config, b.0.hash, touched), |NotErc20(s.node, s.config, b.0.hash, touched)|)
  {
    EveryKey(touched, results);
    MetasFolded(s.node, s.config, b.0.hash, results, |results|);
  }

  /** The uncached pools and tokens give the uncached facts. */
  lemma {:induction false} GatheredIsUncached(s: Setup, b: Block, results: seq<(Address, Option<TokenMeta>)>)
    requires AnswersAll(TokensOf(s, b), MetaRead(s, b), results)
    ensures Gathered(s, b, PoolTokens(s.node, s.config, b.0.hash, b.1.pools), TokensOf(s, b),
                     |UnverifiedPools(s.node, s.config, b.0.hash, b.1.pools)|, results)
         == (Facts(s.node, s.config, b.0, b.1), ReportOf(s.node, s.config, b.0, b.1))
  {
    MetasFold(s, b, TokensOf(s, b), results);
  }

  /** What the answers left by others, and by the block itself, may be. */
  ghost predicate Covers(s: Setup, b: Block, others: Foreign, may: Foreign) {
    && others.pools <= may.pools && Rememberable(b.1.pools, PoolRead(s, b)) <= may.pools
    && others.tokens <= may.tokens && Rememberable(TokensOf(s, b), MetaRead(s, b)) <= may.tokens
  }

  ghost predicate HoldBoth(c: Caches, may: Foreign) {
    Holds(c.tokens.entries, may.tokens) && Holds(c.pools.entries, may.pools)
  }

  ghost predicate TrustsPools(s: Setup, b: Block, may: Foreign) {
    Trusted(may.pools, b.1.pools, PoolRead(s, b))
  }

  ghost predicate TrustsTokens(s: Setup, b: Block, may: Foreign) {
    Trusted(may.tokens, TokensOf(s, b), MetaRead(s, b))
  }

  /** A block whose own answers agree with all that may be remembered is read right, and leaves no more than that. */
  lemma {:induction false} BlockIsRight(s: Setup, others: Foreign, b: Block, from: Caches, how: Schedule, to: Caches,
                                        r: FactsRead, may: Foreign)
    requires Enriched(s, others, b, from, how, to, r) && HoldBoth(from, may) && Covers(s, b, others, may)
    requires TrustsPools(s, b, may) && TrustsTokens(s, b, may)
    ensures Uncached(s.node, s.config, b.0, b.1, r) && HoldBoth(to, may)
  {
    ForeignMore(how.pools, others.pools, may.pools);
    FanAnswersAll(s.poolCap, b.1.pools, PoolRead(s, b), may.pools, from.pools, how.pools);
    var pools := PoolFan(s, b, from, how);
    if !pools.lost {
      PoolsFold(s, b, pools.results);
      TokensAreRight(s, others, b, from, pools.results, how, to, r, may);
    }
  }

  lemma {:induction false} TokensAreRight(s: Setup, others: Foreign, b: Block, from: Caches,
                                          pools: seq<(Address, PoolIdentity)>,
                                          how: Schedule, to: Caches, r: FactsRead, may: Foreign)
    requires EnrichedFrom(s, b, from, pools, how, to, r) && AnswersAll(b.1.pools, PoolRead(s, b), pools)
    requires OnlyForeign(how.tokens, others.tokens) && others.tokens <= may.tokens && Holds(from.tokens.entries, may.tokens)
    requires Rememberable(TokensOf(s, b), MetaRead(s, b)) <= may.tokens && TrustsTokens(s, b, may)
    ensures Uncached(s.node, s.config, b.0, b.1, r) && Holds(to.tokens.entries, may.tokens)
  {
    PoolsFold(s, b, pools);
    ForeignMore(how.tokens, others.tokens, may.tokens);
    FanAnswersAll(s.tokenCap, TokensOf(s, b), MetaRead(s, b), may.tokens, from.tokens, how.tokens);
    if how.reserves {
      var tokens := TokenFan(s, b, from, TokensOf(s, b), how);
      if !tokens.lost { GatheredIsUncached(s, b, tokens.results); }
    }
  }

  // ----- Executions of one block -----

  lemma {:induction false} OwnIsNotForeign<K, V>(steps: seq<Step<K, V>>, others: set<(K, V)>)
    requires OwnSteps(steps)
    ensures OnlyForeign(steps, others)
  {}

  /** A block is read without leaving anything in the caches. */
  lemma {:induction false} LeavesNothing(s: Setup, others: Foreign, b: Block, from: Caches)
    returns (how: Schedule, r: FactsRead)
    ensures Enriched(s, others, b, from, how, from, r)
  {
    var pools := OnlyLooks(s.poolCap, PoolRead(s, b), Start(from.pools, b.1.pools));
    OwnIsNotForeign(pools, others.pools);
    how, r := LooksForTokens(s, others, b, from, pools);
  }

  /** Whatever the pools' fan-out did, the tokens' leaves nothing. */
  lemma {:induction false} LooksForTokens(s: Setup, others: Foreign, b: Block, from: Caches,
                                          pools: seq<Step<Address, PoolIdentity>>) returns (how: Schedule, r: FactsRead)
    requires OnlyForeign(pools, others.pools)
    requires Fanned(s.poolCap, PoolRead(s, b), Start(from.pools, b.1.pools), pools).Ended()
    ensures how.pools == pools
    ensures Enriched(s, others, b, from, how, Caches(from.tokens, PoolFan(s, b, from, how).cache), r)
  {
    var end := Fanned(s.poolCap, PoolRead(s, b), Start(from.pools, b.1.pools), pools);
    if end.lost {
      how, r := Schedule(pools, false, [], false), Err("");
    } else {
      var (poolTokens, touched, unverified) := FoldPools(b.1.tokens, end.results, |end.results|);
      var tokens := OnlyLooks(s.tokenCap, MetaRead(s, b), Start(from.tokens, touched));
      OwnIsNotForeign(tokens, others.tokens);
      how := Schedule(pools, true, tokens, true);
      var read := TokenFan(s, b, from, touched, how);
      r := if read.lost then Err("") else Ok(Gathered(s, b, poolTokens, touched, unverified, read.results));
    }
  }

  /** With both fan-outs complete, a block's facts are what they came back with. */
  lemma {:induction false} BothComplete(s: Setup, others: Foreign, b: Block, from: Caches, how: Schedule)
    returns (to: Caches, r: FactsRead)
    requires OnlyForeign(how.pools, others.pools) && OnlyForeign(how.tokens, others.tokens) && how.reserves && how.prices
    requires var pools := PoolFan(s, b, from, how);
             && pools.Ended() && !pools.lost
             && var tokens := TokenFan(s, b, from, FoldPools(b.1.tokens, pools.results, |pools.results|).1, how);
                tokens.Ended() && !tokens.lost
    ensures Enriched(s, others, b, from, how, to, r)
    ensures var pools := PoolFan(s, b, from, how);
            var (poolTokens, touched, unverified) := FoldPools(b.1.tokens, pools.results, |pools.results|);
            r == Ok(Gathered(s, b, poolTokens, touched, unverified, TokenFan(s, b, from, touched, how).results))
  {
    var pools := PoolFan(s, b, from, how);
    var (poolTokens, touched, unverified) := FoldPools(b.1.tokens, pools.results, |pools.results|);
    var tokens := TokenFan(s, b, from, touched, how);
    to := Caches(tokens.cache, pools.cache);
    r := Ok(Gathered(s, b, poolTokens, touched, unverified, tokens.results));
  }

  lemma {:induction false} FoldPoolsAt(emitters: set<Address>, results: seq<(Address, PoolIdentity)>, n: nat, i: nat)
    requires Distinct(results) && i < n <= |results|
    ensures var (p, v) := results[i];
            var poolTokens := FoldPools(emitters, results, n).0;
            (p in poolTokens <==> v.Verified?) && (v.Verified? ==> poolTokens[p] == (v.token0, v.token1))
    decreases n
  {
    if i < n - 1 {
      FoldPoolsAt(emitters, results, n - 1, i);
    } else {
      NotFoldedYet(emitters, results, n - 1);
    }
  }

  lemma {:induction false} NotFoldedYet(emitters: set<Address>, results: seq<(Address, PoolIdentity)>, n: nat)
    requires Distinct(results) && n <= |results|
    ensures forall p <- FoldPools(emitters, results, n).0 :: exists i :: 0 <= i < n && results[i].0 == p
    decreases n
  {
    if n > 0 { NotFoldedYet(emitters, results, n - 1); }
  }

  lemma {:induction false} FoldMetasAt(results: seq<(Address, Option<TokenMeta>)>, n: nat, i: nat)
    requires Distinct(results) && i < n <= |results|
    ensures var (t, v) := results[i];
            var metas := FoldMetas(results, n).0;
            (t in metas <==> v.Some?) && (v.Some? ==> metas[t] == v.value)
    decreases n
  {
    if i < n - 1 {
      FoldMetasAt(results, n - 1, i);
    } else {
      NoMetaYet(results, n - 1);
    }
  }

  lemma {:induction false} NoMetaYet(results: seq<(Address, Option<TokenMeta>)>, n: nat)
    requires Distinct(results) && n <= |results|
    ensures forall t <- FoldMetas(results, n).0 :: exists i :: 0 <= i < n && results[i].0 == t
    decreases n
  {
    if n > 0 { NoMetaYet(results, n - 1); }
  }

  /** No read has begun. */
  ghost predicate NotBegun<K, V>(keys: set<K>, s: Fan<K, V>) {
    s == Start(s.cache, keys)
  }

  /** A fan-out that starts with this answer, wrong or not, and comes to its end. */
  lemma {:induction false} FirstFromCache<K, V>(capacity: nat, keys: set<K>, read: K -> Read<V>, cache: Content<K, V>,
                                                others: set<(K, V)>, lead: seq<Step<K, V>>, k: K) returns (steps: seq<Step<K, V>>)
    requires OnlyForeign(lead, others) && NotBegun(keys, Fanned(capacity, read, Start(cache, keys), lead))
    requires k in keys && k in Fanned(capacity, read, Start(cache, keys), lead).cache.entries
    ensures OnlyForeign(steps, others)
    ensures var end := Fanned(capacity, read, Start(cache, keys), steps);
            && end.Ended() && !end.lost && Distinct(end.results)
            && end.results != [] && end.results[0] == (k, Fanned(capacity, read, Start(cache, keys), lead).cache.entries[k])
  {
    var begun := Fanned(capacity, read, Start(cache, keys), lead);
    var own := AnswersFromCache(capacity, read, begun, k);
    FannedAppend(capacity, read, Start(cache, keys), lead, own);
    steps := lead + own;
    FreshFan(cache, keys);
    FanKeepsForm(capacity, keys, read, Start(cache, keys), steps);
  }

  /** A pool's identity found in the cache, and different from its own, makes the facts wrong. */
  lemma {:induction false} MisreadsPool(s: Setup, others: Foreign, b: Block, from: Caches,
                                        lead: seq<Step<Address, PoolIdentity>>, p: Address)
    returns (how: Schedule, to: Caches, r: FactsRead)
    requires OnlyForeign(lead, others.pools) && p in b.1.pools
    requires var begun := Fanned(s.poolCap, PoolRead(s, b), Start(from.pools, b.1.pools), lead);
             && NotBegun(b.1.pools, begun) && p in begun.cache.entries
             && begun.cache.entries[p] != PoolRead(s, b)(p).value
    ensures Enriched(s, others, b, from, how, to, r) && !Uncached(s.node, s.config, b.0, b.1, r)
  {
    var pools := FirstFromCache(s.poolCap, b.1.pools, PoolRead(s, b), from.pools, others.pools, lead, p);
    var results := Fanned(s.poolCap, PoolRead(s, b), Start(from.pools, b.1.pools), pools).results;
    var (poolTokens, touched, unverified) := FoldPools(b.1.tokens, results, |results|);
    var tokens := Completes(s.tokenCap, MetaRead(s, b), Start(from.tokens, touched));
    OwnIsNotForeign(tokens, others.tokens);
    how := Schedule(pools, true, tokens, true);
    to, r := BothComplete(s, others, b, from, how);
    FoldPoolsAt(b.1.tokens, results, |results|, 0);
    WrongPoolShows(s, b, poolTokens, results[0].0, results[0].1);
  }

  lemma {:induction false} WrongPoolShows(s: Setup, b: Block, poolTokens: map<Address, (Address, Address)>,
                                          p: Address, v: PoolIdentity)
    requires p in b.1.pools && v != PoolRead(s, b)(p).value
    requires (p in poolTokens <==> v.Verified?) && (v.Verified? ==> poolTokens[p] == (v.token0, v.token1))
    ensures poolTokens != PoolTokens(s.node, s.config, b.0.hash, b.1.pools)
  {
    var right := PoolTokens(s.node, s.config, b.0.hash, b.1.pools);
    assert p in right <==> ReadIdentity(s.node, s.config, p, b.0.hash).value.Verified?;
  }

  /** A token's metadata found in the cache, and different from its own, makes the facts wrong. */
  lemma {:induction false} MisreadsToken(s: Setup, others: Foreign, b: Block, from: Caches,
                                         may: set<(Address, PoolIdentity)>,
                                         lead: seq<Step<Address, Option<TokenMeta>>>, t: Address)
    returns (how: Schedule, to: Caches, r: FactsRead)
    requires Holds(from.pools.entries, may) && Trusted(may, b.1.pools, PoolRead(s, b))
    requires Rememberable(b.1.pools, PoolRead(s, b)) <= may
    requires OnlyForeign(lead, others.tokens) && t in TokensOf(s, b)
    requires var begun := Fanned(s.tokenCap, MetaRead(s, b), Start(from.tokens, TokensOf(s, b)), lead);
             && NotBegun(TokensOf(s, b), begun) && t in begun.cache.entries
             && begun.cache.entries[t] != MetaRead(s, b)(t).value
    ensures Enriched(s, others, b, from, how, to, r) && !Uncached(s.node, s.config, b.0, b.1, r) && r.Ok?
    ensures var v := Fanned(s.tokenCap, MetaRead(s, b), Start(from.tokens, TokensOf(s, b)), lead).cache.entries[t];
            (t in r.value.0.tokens <==> v.Some?) && (v.Some? ==> r.value.0.tokens[t] == v.value)
  {
    var pools := Completes(s.poolCap, PoolRead(s, b), Start(from.pools, b.1.pools));
    OwnIsNotForeign(pools, others.pools);
    OwnIsNotForeign(pools, may);
    FanAnswersAll(s.poolCap, b.1.pools, PoolRead(s, b), may, from.pools, pools);
    PoolsFold(s, b, Fanned(s.poolCap, PoolRead(s, b), Start(from.pools, b.1.pools), pools).results);
    var tokens := FirstFromCache(s.tokenCap, TokensOf(s, b), MetaRead(s, b), from.tokens, others.tokens, lead, t);
    how := Schedule(pools, true, tokens, true);
    to, r := BothComplete(s, others, b, from, how);
    var results := TokenFan(s, b, from, TokensOf(s, b), how).results;
    FoldMetasAt(results, |results|, 0);
    WrongMetaShows(s, b, r.value.0.tokens, t, results[0].1);
  }

  lemma {:induction false} WrongMetaShows(s: Setup, b: Block, metas: map<Address, TokenMeta>, t: Address,
                                          v: Option<TokenMeta>)
    requires t in TokensOf(s, b) && v != MetaRead(s, b)(t).value
    requires (t in metas <==> v.Some?) && (v.Some? ==> metas[t] == v.value)
    ensures metas != Metas(s.node, s.config, b.0.hash, TokensOf(s, b))
  {
    var right := Metas(s.node, s.config, b.0.hash, TokensOf(s, b));
    assert t in right <==> ReadMeta(s.node, s.config, t, b.0.hash).value.Some?;
  }

  /** The first block to be read leaves the identity of a pool. */
  lemma {:induction false} LeavesPool(s: Setup, others: Foreign, b: Block, p: Address)
    returns (how: Schedule, to: Caches, r: FactsRead)
    requires p in b.1.pools && PoolRead(s, b)(p).cacheable
    ensures Enriched(s, others, b, EMPTY, how, to, r)
    ensures to.pools.entries == map[p := PoolRead(s, b)(p).value]
  {
    var pools := LeavesAnswer(s.poolCap, PoolRead(s, b), Start(EMPTY.pools, b.1.pools), p);
    OwnIsNotForeign(pools, others.pools);
    how, r := LooksForTokens(s, others, b, EMPTY, pools);
    to := Caches(EMPTY.tokens, PoolFan(s, b, EMPTY, how).cache);
  }

  /** The first block to be read leaves the metadata of a token, and true identities of pools. */
  lemma {:induction false} LeavesToken(s: Setup, others: Foreign, b: Block, t: Address)
    returns (how: Schedule, to: Caches, r: FactsRead)
    requires t in TokensOf(s, b) && MetaRead(s, b)(t).cacheable
    ensures Enriched(s, others, b, EMPTY, how, to, r)
    ensures to.tokens.entries == map[t := MetaRead(s, b)(t).value]
    ensures Holds(to.pools.entries, Rememberable(b.1.pools, PoolRead(s, b)))
  {
    var may := Rememberable(b.1.pools, PoolRead(s, b));
    var pools := Completes(s.poolCap, PoolRead(s, b), Start(EMPTY.pools, b.1.pools));
    OwnIsNotForeign(pools, others.pools);
    OwnIsNotForeign(pools, may);
    FanAnswersAll(s.poolCap, b.1.pools, PoolRead(s, b), may, EMPTY.pools, pools);
    var end := Fanned(s.poolCap, PoolRead(s, b), Start(EMPTY.pools, b.1.pools), pools);
    PoolsFold(s, b, end.results);
    var tokens := LeavesAnswer(s.tokenCap, MetaRead(s, b), Start(EMPTY.tokens, TokensOf(s, b)), t);
    OwnIsNotForeign(tokens, others.tokens);
    how := Schedule(pools, true, tokens, true);
    var read := TokenFan(s, b, EMPTY, TokensOf(s, b), how);
    to := Caches(read.cache, end.cache);
    r := if read.lost then Err("")
         else Ok(Gathered(s, b, PoolTokens(s.node, s.config, b.0.hash, b.1.pools), TokensOf(s, b),
                          |UnverifiedPools(s.node, s.config, b.0.hash, b.1.pools)|, read.results));
  }

  // ----- Histories -----

  ghost function Accumulated<T>(base: set<T>, added: seq<set<T>>, n: nat): set<T>
    requires n <= |added|
  {
    if n == 0 then base else Accumulated(base, added, n - 1) + added[n - 1]
  }

  lemma {:induction false} AddedIsIn<T>(base: set<T>, added: seq<set<T>>, i: nat, n: nat)
    requires i < n <= |added|
    ensures added[i] <= Accumulated(base, added, n)
    decreases n
  {
    if i < n - 1 { AddedIsIn(base, added, i, n - 1); }
  }

  lemma {:induction false} BaseIsIn<T>(base: set<T>, added: seq<set<T>>, n: nat)
    requires n <= |added|
    ensures base <= Accumulated(base, added, n)
    decreases n
  {
    if n > 0 { BaseIsIn(base, added, n - 1); }
  }

  lemma {:induction false} ComesFrom<T>(base: set<T>, added: seq<set<T>>, n: nat, x: T) returns (i: nat)
    requires n <= |added| && x in Accumulated(base, added, n) && x !in base
    ensures i < n && x in added[i]
    decreases n
  {
    if x in added[n - 1] {
      i := n - 1;
    } else {
      i := ComesFrom(base, added, n - 1, x);
    }
  }

  ghost function PoolsLeft(s: Setup, blocks: seq<Block>): seq<set<(Address, PoolIdentity)>> {
    seq(|blocks|, i requires 0 <= i < |blocks| => Rememberable(blocks[i].1.pools, PoolRead(s, blocks[i])))
  }

  ghost function TokensLeft(s: Setup, blocks: seq<Block>): seq<set<(Address, Option<TokenMeta>)>> {
    seq(|blocks|, i requires 0 <= i < |blocks| => Rememberable(TokensOf(s, blocks[i]), MetaRead(s, blocks[i])))
  }

  /** Everything in the caches once these blocks were read came from here: from elsewhere, or from one of them. */
  ghost function Remembered(s: Setup, others: Foreign, blocks: seq<Block>, n: nat): Foreign
    requires n <= |blocks|
  {
    Foreign(Accumulated(others.tokens, TokensLeft(s, blocks), n), Accumulated(others.pools, PoolsLeft(s, blocks), n))
  }

  /** An answer that may be remembered when this block is read differs from the block's own. */
  ghost predicate IsContradicted(s: Setup, others: Foreign, blocks: seq<Block>, j: nat)
    requires j < |blocks|
  {
    var may := Remembered(s, others, blocks, j);
    !TrustsPools(s, blocks[j], may) || !TrustsTokens(s, blocks[j], may)
  }

  lemma {:induction false} HoldsMore(c: Caches, may: Foreign, more: Foreign)
    requires HoldBoth(c, may) && may.tokens <= more.tokens && may.pools <= more.pools
    ensures HoldBoth(c, more)
  {}

  lemma {:induction false} TrustsItself(s: Setup, others: Foreign, blocks: seq<Block>, j: nat)
    requires j < |blocks| && !IsContradicted(s, others, blocks, j)
    ensures var may := Remembered(s, others, blocks, j + 1);
            TrustsPools(s, blocks[j], may) && TrustsTokens(s, blocks[j], may) && Covers(s, blocks[j], others, may)
  {
    var may, b := Remembered(s, others, blocks, j), blocks[j];
    BaseIsIn(others.tokens, TokensLeft(s, blocks), j);
    BaseIsIn(others.pools, PoolsLeft(s, blocks), j);
    TrustsMore(may.pools, b.1.pools, PoolRead(s, b));
    TrustsMore(may.tokens, TokensOf(s, b), MetaRead(s, b));
  }

  lemma {:induction false} TrustsMore<K, V>(may: set<(K, V)>, keys: set<K>, read: K -> Read<V>)
    requires Trusted(may, keys, read)
    ensures Trusted(may + Rememberable(keys, read), keys, read)
  {}

  lemma {:induction false} TurnIsRight(s: Setup, others: Foreign, blocks: seq<Block>, turns: seq<Turn>, j: nat)
    requires Executes(s, others, blocks, EMPTY, turns) && j < |turns| && !IsContradicted(s, others, blocks, j)
    requires HoldBoth(Found(EMPTY, turns, j), Remembered(s, others, blocks, j))
    ensures HoldBoth(turns[j].after, Remembered(s, others, blocks, j + 1))
    ensures Uncached(s.node, s.config, blocks[j].0, blocks[j].1, turns[j].result)
  {
    TrustsItself(s, others, blocks, j);
    HoldsMore(Found(EMPTY, turns, j), Remembered(s, others, blocks, j), Remembered(s, others, blocks, j + 1));
    var t := turns[j];
    assert IsTurn(s, others)(blocks[j], t);
    BlockIsRight(s, others, blocks[j], t.before, t.how, t.after, t.result, Remembered(s, others, blocks, j + 1));
  }

  /** The caches hold what was to be remembered, and nothing else. */
  ghost predicate AsRemembered(s: Setup, others: Foreign, blocks: seq<Block>, turns: seq<Turn>, n: nat)
    requires n <= |turns| <= |blocks|
  {
    HoldBoth(Found(EMPTY, turns, n), Remembered(s, others, blocks, n))
  }

  ghost predicate Contradictory(s: Setup, others: Foreign, blocks: seq<Block>) {
    exists j | 0 <= j < |blocks| :: IsContradicted(s, others, blocks, j)
  }

  lemma {:induction false} NextIsRight(s: Setup, others: Foreign, blocks: seq<Block>, turns: seq<Turn>, j: nat)
    requires Executes(s, others, blocks, EMPTY, turns) && j < |turns| && !Contradictory(s, others, blocks)
    requires AsRemembered(s, others, blocks, turns, j)
    ensures AsRemembered(s, others, blocks, turns, j + 1)
    ensures Uncached(s.node, s.config, blocks[j].0, blocks[j].1, turns[j].result)
  {
    assert !IsContradicted(s, others, blocks, j);
    TurnIsRight(s, others, blocks, turns, j);
  }

  ghost function StillAsRemembered(s: Setup, others: Foreign, blocks: seq<Block>, turns: seq<Turn>): nat -> bool {
    (n: nat) => n <= |turns| <= |blocks| && AsRemembered(s, others, blocks, turns, n)
  }

  lemma {:induction false} StaysAsRemembered(s: Setup, others: Foreign, blocks: seq<Block>, turns: seq<Turn>, j: nat)
    requires Executes(s, others, blocks, EMPTY, turns) && j < |turns| && !Contradictory(s, others, blocks)
    requires StillAsRemembered(s, others, blocks, turns)(j)
    ensures StillAsRemembered(s, others, blocks, turns)(j + 1)
  {
    NextIsRight(s, others, blocks, turns, j);
  }

  lemma {:induction false} ByInduction(holds: nat -> bool, n: nat)
    requires holds(0) && forall j: nat | j < n && holds(j) :: holds(j + 1)
    ensures holds(n)
    decreases n
  {
    if n > 0 { ByInduction(holds, n - 1); }
  }

  lemma {:induction false} AllStayAsRemembered(s: Setup, others: Foreign, blocks: seq<Block>, turns: seq<Turn>,
                                               holds: nat -> bool)
    requires Executes(s, others, blocks, EMPTY, turns) && !Contradictory(s, others, blocks)
    requires holds == StillAsRemembered(s, others, blocks, turns)
    ensures forall j: nat | j < |turns| && holds(j) :: holds(j + 1)
  {
    forall j: nat | j < |turns| && holds(j) ensures holds(j + 1) {
      StaysAsRemembered(s, others, blocks, turns, j);
    }
  }

  lemma {:induction false} AlwaysAsRemembered(s: Setup, others: Foreign, blocks: seq<Block>, turns: seq<Turn>, n: nat)
    requires Executes(s, others, blocks, EMPTY, turns) && n <= |turns| && !Contradictory(s, others, blocks)
    ensures StillAsRemembered(s, others, blocks, turns)(n)
  {
    var holds := StillAsRemembered(s, others, blocks, turns);
    StartsAsRemembered(s, others, blocks, turns);
    AllStayAsRemembered(s, others, blocks, turns, holds);
    ByInduction(holds, n);
  }

  lemma {:induction false} StartsAsRemembered(s: Setup, others: Foreign, blocks: seq<Block>, turns: seq<Turn>)
    requires |turns| <= |blocks|
    ensures StillAsRemembered(s, others, blocks, turns)(0)
  {}

  /** Blocks up to a position read without leaving anything. */
  lemma {:induction false} GoOnQuietly(s: Setup, others: Foreign, blocks: seq<Block>, turns: seq<Turn>, n: nat)
    returns (more: seq<Turn>)
    requires Executes(s, others, blocks, EMPTY, turns) && |turns| <= n <= |blocks|
    ensures Executes(s, others, blocks, EMPTY, more) && |more| == n
    ensures Found(EMPTY, more, n) == Found(EMPTY, turns, |turns|)
    decreases n - |turns|
  {
    if |turns| == n {
      more := turns;
    } else {
      var from := Found(EMPTY, turns, |turns|);
      var how, r := LeavesNothing(s, others, blocks[|turns|], from);
      var t := Turn(from, how, from, r);
      OneMoreTurn(s, others, blocks, EMPTY, turns, t);
      more := GoOnQuietly(s, others, blocks, turns + [t], n);
    }
  }

  /** A history one block of which leaves an answer, and nothing else is left before a later one. */
  lemma {:induction false} OneLeaves(s: Setup, others: Foreign, blocks: seq<Block>, i: nat, how: Schedule, to: Caches,
                                     r: FactsRead, j: nat) returns (turns: seq<Turn>)
    requires i < j <= |blocks| && Enriched(s, others, blocks[i], EMPTY, how, to, r)
    ensures Executes(s, others, blocks, EMPTY, turns) && |turns| == j && Found(EMPTY, turns, j) == to
  {
    turns := GoOnQuietly(s, others, blocks, [], i);
    OneMoreTurn(s, others, blocks, EMPTY, turns, Turn(EMPTY, how, to, r));
    turns := GoOnQuietly(s, others, blocks, turns + [Turn(EMPTY, how, to, r)], j);
  }

  /** Some block of the execution returned other than its uncached facts and report. */
  ghost predicate Misread(s: Setup, blocks: seq<Block>, turns: seq<Turn>)
    requires |turns| <= |blocks|
  {
    exists i | 0 <= i < |turns| :: !Uncached(s.node, s.config, blocks[i].0, blocks[i].1, turns[i].result)
  }

  ghost predicate CanMisread(s: Setup, others: Foreign, blocks: seq<Block>) {
    exists turns :: Executes(s, others, blocks, EMPTY, turns) && Misread(s, blocks, turns)
  }

  lemma {:induction false} EndsMisread(s: Setup, others: Foreign, blocks: seq<Block>, turns: seq<Turn>, how: Schedule,
                                       to: Caches, r: FactsRead)
    requires Executes(s, others, blocks, EMPTY, turns) && |turns| < |blocks|
    requires var b := blocks[|turns|];
             Enriched(s, others, b, Found(EMPTY, turns, |turns|), how, to, r) && !Uncached(s.node, s.config, b.0, b.1, r)
    ensures CanMisread(s, others, blocks)
  {
    var t := Turn(Found(EMPTY, turns, |turns|), how, to, r);
    OneMoreTurn(s, others, blocks, EMPTY, turns, t);
    assert (turns + [t])[|turns|] == t;
    assert Misread(s, blocks, turns + [t]);
  }

  lemma {:induction false} PutLeads<K, V>(capacity: nat, keys: set<K>, read: K -> Read<V>, cache: Content<K, V>, k: K,
                                          v: V)
    ensures var begun := Fanned(capacity, read, Start(cache, keys), [Step.Other(k, v)]);
            NotBegun(keys, begun) && k in begun.cache.entries && begun.cache.entries[k] == v
  {
    OneMoreStep(capacity, read, Start(cache, keys), [], Step.Other(k, v));
    assert [] + [Step.Other(k, v)] == [Step.Other(k, v)];
  }

  lemma {:induction false} ContradictedPool(s: Setup, others: Foreign, blocks: seq<Block>, j: nat)
    requires j < |blocks| && !TrustsPools(s, blocks[j], Remembered(s, others, blocks, j))
    ensures CanMisread(s, others, blocks)
  {
    var b := blocks[j];
    var a :| a in Remembered(s, others, blocks, j).pools && a.0 in b.1.pools && a.1 != PoolRead(s, b)(a.0).value;
    var (p, v) := a;
    if a in others.pools {
      var turns := GoOnQuietly(s, others, blocks, [], j);
      PutLeads(s.poolCap, b.1.pools, PoolRead(s, b), EMPTY.pools, p, v);
      var how, to, r := MisreadsPool(s, others, b, EMPTY, [Step.Other(p, v)], p);
      EndsMisread(s, others, blocks, turns, how, to, r);
    } else {
      var i := ComesFrom(others.pools, PoolsLeft(s, blocks), j, a);
      assert (p, v) in Rememberable(blocks[i].1.pools, PoolRead(s, blocks[i]));
      var how, to, r := LeavesPool(s, others, blocks[i], p);
      var turns := OneLeaves(s, others, blocks, i, how, to, r, j);
      var how', to', r' := MisreadsPool(s, others, b, to, [], p);
      EndsMisread(s, others, blocks, turns, how', to', r');
    }
  }

  lemma {:induction false} TrustsLess<K, V>(less: set<(K, V)>, may: set<(K, V)>, keys: set<K>, read: K -> Read<V>)
    requires Trusted(may, keys, read) && less <= may
    ensures Trusted(less + Rememberable(keys, read), keys, read)
  {}

  lemma {:induction false} ContradictedToken(s: Setup, others: Foreign, blocks: seq<Block>, j: nat)
    requires j < |blocks| && TrustsPools(s, blocks[j], Remembered(s, others, blocks, j))
    requires !TrustsTokens(s, blocks[j], Remembered(s, others, blocks, j))
    ensures CanMisread(s, others, blocks)
  {
    var b, may := blocks[j], Remembered(s, others, blocks, j);
    var own := Rememberable(b.1.pools, PoolRead(s, b));
    var a :| a in may.tokens && a.0 in TokensOf(s, b) && a.1 != MetaRead(s, b)(a.0).value;
    var (t, v) := a;
    if a in others.tokens {
      var turns := GoOnQuietly(s, others, blocks, [], j);
      TrustsLess({}, may.pools, b.1.pools, PoolRead(s, b));
      PutLeads(s.tokenCap, TokensOf(s, b), MetaRead(s, b), EMPTY.tokens, t, v);
      var how, to, r := MisreadsToken(s, others, b, EMPTY, {} + own, [Step.Other(t, v)], t);
      EndsMisread(s, others, blocks, turns, how, to, r);
    } else {
      var i := ComesFrom(others.tokens, TokensLeft(s, blocks), j, a);
      assert (t, v) in Rememberable(TokensOf(s, blocks[i]), MetaRead(s, blocks[i]));
      var left := Rememberable(blocks[i].1.pools, PoolRead(s, blocks[i]));
      var how, to, r := LeavesToken(s, others, blocks[i], t);
      var turns := OneLeaves(s, others, blocks, i, how, to, r, j);
      AddedIsIn(others.pools, PoolsLeft(s, blocks), i, j);
      TrustsLess(left, may.pools, b.1.pools, PoolRead(s, b));
      var how', to', r' := MisreadsToken(s, others, b, to, left + own, [], t);
      EndsMisread(s, others, blocks, turns, how', to', r');
    }
  }

  lemma {:induction false} NeverMisread(s: Setup, others: Foreign, blocks: seq<Block>, turns: seq<Turn>)
    requires Executes(s, others, blocks, EMPTY, turns) && |turns| <= |blocks| && !Contradictory(s, others, blocks)
    ensures !Misread(s, blocks, turns)
  {
    forall i | 0 <= i < |turns| ensures Uncached(s.node, s.config, blocks[i].0, blocks[i].1, turns[i].result) {
      AlwaysAsRemembered(s, others, blocks, turns, i);
      NextIsRight(s, others, blocks, turns, i);
    }
  }

  /**
   Some execution of a history returns for some block other than its uncached facts and report
   exactly when some block contradicts an answer that an earlier one, or an enrichment
   elsewhere, may leave in a cache.
   */
  lemma {:induction false} CanMisreadIff(s: Setup, others: Foreign, blocks: seq<Block>)
    ensures CanMisread(s, others, blocks) <==> Contradictory(s, others, blocks)
  {
    if Contradictory(s, others, blocks) {
      var j :| 0 <= j < |blocks| && IsContradicted(s, others, blocks, j);
      if TrustsPools(s, blocks[j], Remembered(s, others, blocks, j)) {
        ContradictedToken(s, others, blocks, j);
      } else {
        ContradictedPool(s, others, blocks, j);
      }
    } else {
      forall turns: seq<Turn> | Executes(s, others, blocks, EMPTY, turns) ensures !Misread(s, blocks, turns) {
        NeverMisread(s, others, blocks, turns);
      }
    }
  }

  // ----- Block against block -----

  /** One block may remember an answer for a key of the other, which answers differently. */
  ghost predicate Contradicts<K(!new), V>(keys: set<K>, read: K -> Read<V>, laterKeys: set<K>,
                                laterRead: K -> Read<V>) {
    exists k :: k in keys && k in laterKeys && read(k).cacheable && read(k).value != laterRead(k).value
  }

  ghost predicate Spoils(s: Setup, a: Block, b: Block) {
    || Contradicts(a.1.pools, PoolRead(s, a), b.1.pools, PoolRead(s, b))
    || Contradicts(TokensOf(s, a), MetaRead(s, a), TokensOf(s, b), MetaRead(s, b))
  }

  lemma {:induction false} TrustedIff<K(!new), V>(keys: set<K>, read: K -> Read<V>, laterKeys: set<K>,
                                        laterRead: K -> Read<V>)
    ensures Trusted(Rememberable(keys, read), laterKeys, laterRead) <==> !Contradicts(keys, read, laterKeys, laterRead)
  {
    if k :| k in keys && k in laterKeys && read(k).cacheable && read(k).value != laterRead(k).value {
      assert (k, read(k).value) in Rememberable(keys, read);
    }
  }

  lemma {:induction false} TrustedAccumulated<K, V>(base: set<(K, V)>, added: seq<set<(K, V)>>, n: nat, keys: set<K>,
                                                    read: K -> Read<V>)
    requires n <= |added|
    ensures Trusted(Accumulated(base, added, n), keys, read)
       <==> Trusted(base, keys, read) && forall i | 0 <= i < n :: Trusted(added[i], keys, read)
    decreases n
  {
    if n > 0 { TrustedAccumulated(base, added, n - 1, keys, read); }
  }

  const NONE: Foreign := Foreign({}, {})

  lemma {:induction false} PairTrustsIff(s: Setup, blocks: seq<Block>, i: nat, j: nat)
    requires i < |blocks| && j < |blocks|
    ensures Spoils(s, blocks[i], blocks[j]) <==>
            !(Trusted(PoolsLeft(s, blocks)[i], blocks[j].1.pools, PoolRead(s, blocks[j])) &&
              Trusted(TokensLeft(s, blocks)[i], TokensOf(s, blocks[j]), MetaRead(s, blocks[j])))
  {
    var a, b := blocks[i], blocks[j];
    TrustedIff(a.1.pools, PoolRead(s, a), b.1.pools, PoolRead(s, b));
    TrustedIff(TokensOf(s, a), MetaRead(s, a), TokensOf(s, b), MetaRead(s, b));
  }

  /** A block agrees with all that is remembered of the first blocks exactly when none of those spoils it. */
  lemma {:induction false} TrustsRememberedIff(s: Setup, others: Foreign, blocks: seq<Block>, n: nat, j: nat)
    requires n <= |blocks| && j < |blocks|
    ensures var b, may := blocks[j], Remembered(s, others, blocks, n);
            TrustsPools(s, b, may) && TrustsTokens(s, b, may) <==>
              && TrustsPools(s, b, others) && TrustsTokens(s, b, others)
              && forall i | 0 <= i < n :: !Spoils(s, blocks[i], b)
  {
    var b := blocks[j];
    TrustedAccumulated(others.pools, PoolsLeft(s, blocks), n, b.1.pools, PoolRead(s, b));
    TrustedAccumulated(others.tokens, TokensLeft(s, blocks), n, TokensOf(s, b), MetaRead(s, b));
    forall i | 0 <= i < n
      ensures Spoils(s, blocks[i], b) <==>
              !(Trusted(PoolsLeft(s, blocks)[i], b.1.pools, PoolRead(s, b)) &&
                Trusted(TokensLeft(s, blocks)[i], TokensOf(s, b), MetaRead(s, b)))
    {
      PairTrustsIff(s, blocks, i, j);
    }
  }

  /** Read one after another, blocks can be misread exactly when one of them spoils a later one. */
  lemma {:induction false} CanMisreadInOrderIff(s: Setup, blocks: seq<Block>)
    ensures CanMisread(s, NONE, blocks) <==> exists i, j | 0 <= i < j < |blocks| :: Spoils(s, blocks[i], blocks[j])
  {
    CanMisreadIff(s, NONE, blocks);
    if Contradictory(s, NONE, blocks) {
      var j :| 0 <= j < |blocks| && IsContradicted(s, NONE, blocks, j);
      TrustsRememberedIff(s, NONE, blocks, j, j);
    }
    if i, j :| 0 <= i < j < |blocks| && Spoils(s, blocks[i], blocks[j]) {
      TrustsRememberedIff(s, NONE, blocks, j, j);
      assert IsContradicted(s, NONE, blocks, j);
    }
  }

  /** Everything the blocks of a history may remember. */
  ghost function Everything(s: Setup, blocks: seq<Block>): Foreign {
    Remembered(s, NONE, blocks, |blocks|)
  }

  /** Read beside enrichments of the same blocks, they can be misread exactly when any two disagree. */
  lemma {:induction false} CanMisreadConcurrentlyIff(s: Setup, blocks: seq<Block>)
    ensures CanMisread(s, Everything(s, blocks), blocks)
       <==> exists i, j | 0 <= i < |blocks| && 0 <= j < |blocks| :: Spoils(s, blocks[i], blocks[j])
  {
    var others := Everything(s, blocks);
    CanMisreadIff(s, others, blocks);
    if Contradictory(s, others, blocks) {
      var j :| 0 <= j < |blocks| && IsContradicted(s, others, blocks, j);
      TrustsRememberedIff(s, others, blocks, j, j);
      TrustsRememberedIff(s, NONE, blocks, |blocks|, j);
    }
    if i, j :| 0 <= i < |blocks| && 0 <= j < |blocks| && Spoils(s, blocks[i], blocks[j]) {
      TrustsRememberedIff(s, others, blocks, j, j);
      TrustsRememberedIff(s, NONE, blocks, |blocks|, j);
      assert IsContradicted(s, others, blocks, j);
    }
  }

  /**
   A token read at a block after its code was deployed, and then at one before: the earlier
   block is given the metadata of a token it should report as none.
   */
  lemma {:induction false} EarlierBlockSeesLaterCode(s: Setup, late: Block, early: Block, token: Address)
    returns (turns: seq<Turn>)
    requires late.1.pools == {} && early.1.pools == {} && token in late.1.tokens && token in early.1.tokens
    requires s.node.call(token, "decimals()", early.0.hash) == Returned([])
    requires ReadMeta(s.node, s.config, token, late.0.hash).value.Some?
    ensures Executes(s, NONE, [late, early], EMPTY, turns) && |turns| == 2
    ensures var r := turns[1].result;
            && r.Ok? && token in r.value.0.tokens
            && token !in Facts(s.node, s.config, early.0, early.1).tokens
  {
    var blocks := [late, early];
    var how, to, r := LeavesToken(s, NONE, late, token);
    turns := OneLeaves(s, NONE, blocks, 0, how, to, r, 1);
    var how', to', r' := MisreadsToken(s, NONE, early, to, {}, [], token);
    var t := Turn(to, how', to', r');
    OneMoreTurn(s, NONE, blocks, EMPTY, turns, t);
    turns := turns + [t];
  }
}
