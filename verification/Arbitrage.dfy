/**
 The closed-cycle test of one transaction's swaps: what it received and spent of every token,
 in saturating 256-bit tallies, and whether exactly one cycled token comes out ahead.
 */
module Arbitrage {
  import opened Common
  import opened Abi
  import opened Decode
  import opened Sequences

  const U256_MAX: nat := 0xFFFFFFFFFFFFFFFF_FFFFFFFFFFFFFFFF_FFFFFFFFFFFFFFFF_FFFFFFFFFFFFFFFF

  function Capped(x: nat): nat {
    Min(x, U256_MAX)
  }

  // ----- What a transaction received and spent -----

  ghost function Received(swaps: seq<Swap>, token: Address): nat {
    if swaps == [] then 0 else
    var last := swaps[|swaps| - 1];
    Received(swaps[..|swaps| - 1], token) + if last.tokenOut == token then last.amountOut else 0
  }

  ghost function Spent(swaps: seq<Swap>, token: Address): nat {
    if swaps == [] then 0 else
    var last := swaps[|swaps| - 1];
    Spent(swaps[..|swaps| - 1], token) + if last.tokenIn == token then last.amountIn else 0
  }

  function Look(tally: map<Address, nat>, token: Address): nat {
    if token in tally then tally[token] else 0
  }

  function SaturatingAdd(a: nat, b: nat): nat {
    Capped(a + b)
  }

  /** The tallies of the first swaps: every sum, capped. */
  ghost predicate IsTally(swaps: seq<Swap>, received: map<Address, nat>, spent: map<Address, nat>) {
    forall t: Address :: Look(received, t) == Capped(Received(swaps, t)) && Look(spent, t) == Capped(Spent(swaps, t))
  }

  lemma {:induction false} SumsNext(swaps: seq<Swap>, s: Swap, t: Address)
    ensures Received(swaps + [s], t) == Received(swaps, t) + if s.tokenOut == t then s.amountOut else 0
    ensures Spent(swaps + [s], t) == Spent(swaps, t) + if s.tokenIn == t then s.amountIn else 0
  {
    assert (swaps + [s])[..|swaps|] == swaps;
  }

  function Credit(tally: map<Address, nat>, token: Address, amount: nat): map<Address, nat> {
    tally[token := SaturatingAdd(Look(tally, token), amount)]
  }

  lemma {:induction false} TallyNext(swaps: seq<Swap>, s: Swap, received: map<Address, nat>, spent: map<Address, nat>)
    requires IsTally(swaps, received, spent)
    ensures IsTally(swaps + [s], Credit(received, s.tokenOut, s.amountOut), Credit(spent, s.tokenIn, s.amountIn))
  {
    forall t: Address
      ensures Look(Credit(received, s.tokenOut, s.amountOut), t) == Capped(Received(swaps + [s], t))
      ensures Look(Credit(spent, s.tokenIn, s.amountIn), t) == Capped(Spent(swaps + [s], t))
    {
      SumsNext(swaps, s, t);
      assert Look(received, t) == Capped(Received(swaps, t)) && Look(spent, t) == Capped(Spent(swaps, t));
    }
  }

  /** The tally loop. */
  method Tally(swaps: seq<Swap>) returns (received: map<Address, nat>, spent: map<Address, nat>)
    ensures IsTally(swaps, received, spent)
  {
    received, spent := map[], map[];
    for i := 0 to |swaps|
      invariant IsTally(swaps[..i], received, spent)
    {
      var s := swaps[i];
      TallyNext(swaps[..i], s, received, spent);
      assert swaps[..i + 1] == swaps[..i] + [s];
      received := Credit(received, s.tokenOut, s.amountOut);
      spent := Credit(spent, s.tokenIn, s.amountIn);
    }
    assert swaps[..|swaps|] == swaps;
  }

  // ----- The closed-cycle test -----

  /** `t` alone ends ahead, by `gain`, it was also spent, and every other token nets zero. */
  ghost predicate SoleProfit(received: Address -> nat, spent: Address -> nat, t: Address, gain: nat) {
    && 0 < spent(t) < received(t) && gain == received(t) - spent(t)
    && forall other: Address | other != t :: received(other) == spent(other)
  }

  /** An answer that names the sole profit when there is one, and nothing else. */
  ghost predicate IsAnswer(received: Address -> nat, spent: Address -> nat, profit: Option<(Address, nat)>) {
    forall t: Address, gain: nat :: profit == Some((t, gain)) <==> SoleProfit(received, spent, t, gain)
  }

  ghost function Of(tally: map<Address, nat>): Address -> nat {
    t => Look(tally, t)
  }

  ghost predicate Balanced(received: map<Address, nat>, spent: map<Address, nat>, tokens: set<Address>,
                           profit: Option<(Address, nat)>) {
    && (forall t <- tokens :: (profit.Some? && profit.value.0 == t) || Look(received, t) == Look(spent, t))
    && (profit.Some? ==>
          var (t, gain) := profit.value;
          t in tokens && 0 < Look(spent, t) < Look(received, t) && gain == Look(received, t) - Look(spent, t))
  }

  /** A token that loses, was only bought, or gains beside another, rules out a sole profit. */
  lemma {:induction false} NotSole(received: map<Address, nat>, spent: map<Address, nat>, seen: set<Address>,
                                   profit: Option<(Address, nat)>, token: Address)
    requires Balanced(received, spent, seen, profit) && token !in seen && Look(received, token) != Look(spent, token)
    requires Look(received, token) > Look(spent, token) ==> Look(spent, token) == 0 || profit.Some?
    ensures IsAnswer(Of(received), Of(spent), None)
  {
    forall t: Address, gain: nat ensures !SoleProfit(Of(received), Of(spent), t, gain) {
      assert Of(received)(token) != Of(spent)(token);
      if profit.Some? {
        assert Of(received)(profit.value.0) != Of(spent)(profit.value.0);
      }
    }
  }

  lemma {:induction false} AllBalanced(received: map<Address, nat>, spent: map<Address, nat>, seen: set<Address>,
                                       profit: Option<(Address, nat)>)
    requires seen == received.Keys + spent.Keys && Balanced(received, spent, seen, profit)
    ensures IsAnswer(Of(received), Of(spent), profit)
  {
    forall t: Address, gain: nat ensures profit == Some((t, gain)) <==> SoleProfit(Of(received), Of(spent), t, gain) {
      if profit.Some? {
        assert Of(received)(profit.value.0) != Of(spent)(profit.value.0);
      } else {
        assert Look(received, t) == Look(spent, t);
      }
    }
  }

  /** Every token still has to be looked at or was seen to be in order. */
  ghost predicate Looking(received: map<Address, nat>, spent: map<Address, nat>, tokens: set<Address>,
                          seen: set<Address>,
                          profit: Option<(Address, nat)>)
  {
    && (forall t: Address :: t in received || t in spent <==> t in tokens || t in seen)
    && (forall t <- tokens :: t !in seen)
    && Balanced(received, spent, seen, profit)
  }

  lemma {:induction false} LookNext(received: map<Address, nat>, spent: map<Address, nat>, tokens: set<Address>,
                                    seen: set<Address>,
                                    profit: Option<(Address, nat)>, token: Address)
    requires Looking(received, spent, tokens, seen, profit) && token in tokens
    ensures Look(received, token) == Look(spent, token) ==>
              Looking(received, spent, tokens - {token}, seen + {token}, profit)
    ensures 0 < Look(spent, token) < Look(received, token) && profit.None? ==>
              Looking(received, spent, tokens - {token}, seen + {token}, Some((token, Look(received, token) - Look(spent, token))))
  {}

  /** The tokens are gone through in no particular order. */
  method ClosedCycleProfit(received: map<Address, nat>, spent: map<Address, nat>)
    returns (profit: Option<(Address, nat)>)
    ensures IsAnswer(Of(received), Of(spent), profit)
  {
    profit := None;
    var tokens := received.Keys + spent.Keys;
    ghost var seen: set<Address> := {};
    while tokens != {}
      invariant Looking(received, spent, tokens, seen, profit)
      decreases |tokens|
    {
      var token :| token in tokens;
      LookNext(received, spent, tokens, seen, profit, token);
      var r, s := Look(received, token), Look(spent, token);
      if r > s {
        if s == 0 || profit.Some? {
          NotSole(received, spent, seen, profit, token);
          return None;
        }
        profit := Some((token, r - s));
      } else if r < s {
        NotSole(received, spent, seen, profit, token);
        return None;
      }
      tokens, seen := tokens - {token}, seen + {token};
    }
    AllBalanced(received, spent, seen, profit);
  }

  // ----- The test over the swaps -----

  ghost function Credits(swaps: seq<Swap>): Address -> nat {
    t => Capped(Received(swaps, t))
  }

  ghost function Debits(swaps: seq<Swap>): Address -> nat {
    t => Capped(Spent(swaps, t))
  }

  /** One transaction's swaps: the closed-cycle test over their saturating tallies. */
  method DetectCycle(swaps: seq<Swap>) returns (profit: Option<(Address, nat)>)
    ensures |swaps| < 2 ==> profit == None
    ensures |swaps| >= 2 ==> IsAnswer(Credits(swaps), Debits(swaps), profit)
  {
    if |swaps| < 2 {
      return None;
    }
    var received, spent := Tally(swaps);
    profit := ClosedCycleProfit(received, spent);
    SameTallies(swaps, received, spent, profit);
  }

  lemma {:induction false} SameTallies(swaps: seq<Swap>, received: map<Address, nat>, spent: map<Address, nat>,
                                       profit: Option<(Address, nat)>)
    requires IsTally(swaps, received, spent) && IsAnswer(Of(received), Of(spent), profit)
    ensures IsAnswer(Credits(swaps), Debits(swaps), profit)
  {
    forall t: Address, gain: nat ensures profit == Some((t, gain)) <==> SoleProfit(Credits(swaps), Debits(swaps), t, gain) {
      assert forall u: Address :: Of(received)(u) == Credits(swaps)(u) && Of(spent)(u) == Debits(swaps)(u);
    }
  }

  /** The order of the swaps does not matter. */
  lemma {:induction false} SwapOrderIsIrrelevant(swaps: seq<Swap>, other: seq<Swap>, t: Address)
    requires multiset(swaps) == multiset(other)
    ensures Received(swaps, t) == Received(other, t) && Spent(swaps, t) == Spent(other, t)
    decreases |swaps|
  {
    if swaps == [] {
      assert |other| == |multiset(other)| == 0;
    } else {
      var i := TakeOutLast(swaps, other);
      var s := swaps[|swaps| - 1];
      SwapOrderIsIrrelevant(swaps[..|swaps| - 1], other[..i] + other[i + 1..], t);
      SumsMiddle(other[..i], s, other[i + 1..], t);
    }
  }

  lemma {:induction false} SumsMiddle(a: seq<Swap>, s: Swap, b: seq<Swap>, t: Address)
    ensures Received(a + [s] + b, t) == Received(a + b, t) + if s.tokenOut == t then s.amountOut else 0
    ensures Spent(a + [s] + b, t) == Spent(a + b, t) + if s.tokenIn == t then s.amountIn else 0
    decreases |b|
  {
    if b == [] {
      assert a + [s] + b == a + [s] && a + b == a;
      SumsNext(a, s, t);
    } else {
      var front, last := b[..|b| - 1], b[|b| - 1];
      assert a + [s] + b == (a + [s] + front) + [last] && a + b == (a + front) + [last];
      SumsMiddle(a, s, front, t);
      SumsNext(a + [s] + front, last, t);
      SumsNext(a + front, last, t);
    }
  }

  // ----- What the cap hides -----

  ghost function TrueCredits(swaps: seq<Swap>): Address -> nat {
    t => Received(swaps, t)
  }

  ghost function TrueDebits(swaps: seq<Swap>): Address -> nat {
    t => Spent(swaps, t)
  }

  /** The token's two sums differ, and both reach the cap, so that they look equal. */
  ghost predicate Hidden(swaps: seq<Swap>, t: Address) {
    Received(swaps, t) != Spent(swaps, t) && Received(swaps, t) >= U256_MAX && Spent(swaps, t) >= U256_MAX
  }

  lemma {:induction false} CappedEqualIff(swaps: seq<Swap>, t: Address)
    ensures Credits(swaps)(t) == Debits(swaps)(t) <==> Received(swaps, t) == Spent(swaps, t) || Hidden(swaps, t)
  {}

  /** A profit the capped tallies name is the true one exactly when its receipts fit and no other token is hidden. */
  lemma {:induction false} NamedProfitIsTrueIff(swaps: seq<Swap>, t: Address, gain: nat)
    requires SoleProfit(Credits(swaps), Debits(swaps), t, gain)
    ensures SoleProfit(TrueCredits(swaps), TrueDebits(swaps), t, gain)
       <==> Received(swaps, t) <= U256_MAX && forall u: Address :: !Hidden(swaps, u)
  {
    forall u: Address ensures Hidden(swaps, u) ==> u != t && Received(swaps, u) != Spent(swaps, u) {
      CappedEqualIff(swaps, u);
    }
    if Received(swaps, t) <= U256_MAX && forall u: Address :: !Hidden(swaps, u) {
      forall u: Address | u != t ensures Received(swaps, u) == Spent(swaps, u) {
        CappedEqualIff(swaps, u);
        assert Credits(swaps)(u) == Debits(swaps)(u);
      }
    } else if forall u: Address :: !Hidden(swaps, u) {
      assert TrueCredits(swaps)(t) - TrueDebits(swaps)(t) > gain;
    } else {
      var u: Address :| Hidden(swaps, u);
      assert TrueCredits(swaps)(u) != TrueDebits(swaps)(u);
    }
  }

  /** A true profit is the one the capped tallies name exactly when its receipts fit. */
  lemma {:induction false} TrueProfitIsNamedIff(swaps: seq<Swap>, t: Address, gain: nat)
    requires SoleProfit(TrueCredits(swaps), TrueDebits(swaps), t, gain)
    ensures SoleProfit(Credits(swaps), Debits(swaps), t, gain) <==> Received(swaps, t) <= U256_MAX
  {
    forall u: Address | u != t ensures Credits(swaps)(u) == Debits(swaps)(u) {
      assert TrueCredits(swaps)(u) == TrueDebits(swaps)(u);
    }
  }

  /** Every token but `t` is balanced, and `t` gained, with receipts over the cap. */
  ghost predicate OverflowingGain(swaps: seq<Swap>, t: Address) {
    && 0 < Spent(swaps, t) < Received(swaps, t) && Received(swaps, t) > U256_MAX
    && forall u: Address | u != t :: Received(swaps, u) == Spent(swaps, u)
  }

  /** When the answer over the capped tallies is the answer over the sums themselves. */
  ghost predicate CapIsHarmless(swaps: seq<Swap>, profit: Option<(Address, nat)>) {
    match profit
    case Some((t, gain)) => Received(swaps, t) <= U256_MAX && forall u: Address :: !Hidden(swaps, u)
    case None => forall t: Address :: !OverflowingGain(swaps, t)
  }

  /** The answer is the one over the transaction's true sums exactly when no cap got in its way. */
  lemma {:induction false} AnswerIsTrueIff(swaps: seq<Swap>, profit: Option<(Address, nat)>)
    requires IsAnswer(Credits(swaps), Debits(swaps), profit)
    ensures IsAnswer(TrueCredits(swaps), TrueDebits(swaps), profit) <==> CapIsHarmless(swaps, profit)
  {
    match profit
    case Some((t, gain)) =>
      assert SoleProfit(Credits(swaps), Debits(swaps), t, gain);
      NamedProfitIsTrueIff(swaps, t, gain);
      if SoleProfit(TrueCredits(swaps), TrueDebits(swaps), t, gain) { OnlyAnswer(swaps, t, gain); }
    case None =>
      forall t: Address, gain: nat
        ensures SoleProfit(TrueCredits(swaps), TrueDebits(swaps), t, gain) ==> OverflowingGain(swaps, t)
      {
        if SoleProfit(TrueCredits(swaps), TrueDebits(swaps), t, gain) {
          TrueProfitIsNamedIff(swaps, t, gain);
          SumsAreTrue(swaps, t);
        }
      }
      forall t: Address
        ensures OverflowingGain(swaps, t) ==>
                  SoleProfit(TrueCredits(swaps), TrueDebits(swaps), t, Received(swaps, t) - Spent(swaps, t))
      {}
  }

  lemma {:induction false} SumsAreTrue(swaps: seq<Swap>, t: Address)
    requires forall u: Address | u != t :: TrueCredits(swaps)(u) == TrueDebits(swaps)(u)
    ensures forall u: Address | u != t :: Received(swaps, u) == Spent(swaps, u)
  {
    forall u: Address | u != t ensures Received(swaps, u) == Spent(swaps, u) {
      assert TrueCredits(swaps)(u) == TrueDebits(swaps)(u);
    }
  }

  lemma {:induction false} OnlyAnswer(swaps: seq<Swap>, t: Address, gain: nat)
    requires SoleProfit(TrueCredits(swaps), TrueDebits(swaps), t, gain)
    ensures IsAnswer(TrueCredits(swaps), TrueDebits(swaps), Some((t, gain)))
  {
    forall u: Address, g: nat
      ensures Some((t, gain)) == Some((u, g)) <==> SoleProfit(TrueCredits(swaps), TrueDebits(swaps), u, g)
    {
      assert TrueCredits(swaps)(t) != TrueDebits(swaps)(t);
    }
  }

  /** Two loops that share a token: a loss of it that both capped sums hide. */
  ghost function SharedToken(pool: Address, p: Address, q: Address, r: Address): seq<Swap> {
    [Swap(pool, p, q, 1, U256_MAX), Swap(pool, q, p, U256_MAX, 2), Swap(pool, q, r, 1, 1), Swap(pool, r, p, 1, 1)]
  }

  lemma {:induction false} SharedTokenSums(pool: Address, p: Address, q: Address, r: Address, t: Address)
    ensures Received(SharedToken(pool, p, q, r), t) == Unit(q, t, U256_MAX) + Unit(p, t, 3) + Unit(r, t, 1)
    ensures Spent(SharedToken(pool, p, q, r), t) == Unit(p, t, 1) + Unit(q, t, U256_MAX + 1) + Unit(r, t, 1)
  {
    var a, b := Swap(pool, p, q, 1, U256_MAX), Swap(pool, q, p, U256_MAX, 2);
    var c, d := Swap(pool, q, r, 1, 1), Swap(pool, r, p, 1, 1);
    var none: seq<Swap> := [];
    SumsNext(none, a, t);
    SumsNext([a], b, t);
    SumsNext([a, b], c, t);
    SumsNext([a, b, c], d, t);
    assert none + [a] == [a] && [a] + [b] == [a, b] && [a, b] + [c] == [a, b, c] && [a, b, c] + [d] == [a, b, c, d];
  }

  /** Every swap buys something of another token, the answer names `p`, and `q` was lost. */
  lemma {:induction false} SaturationHidesALoss(pool: Address, p: Address, q: Address, r: Address)
    requires p != q && q != r && r != p
    ensures var swaps := SharedToken(pool, p, q, r);
            && (forall s <- swaps :: s.amountIn > 0 && s.amountOut > 0 && s.tokenIn != s.tokenOut)
            && SoleProfit(Credits(swaps), Debits(swaps), p, 2)
            && Received(swaps, q) < Spent(swaps, q) && Hidden(swaps, q)
  {
    forall t: Address
      ensures var swaps := SharedToken(pool, p, q, r);
              && Credits(swaps)(t) == Unit(q, t, U256_MAX) + Unit(p, t, 3) + Unit(r, t, 1)
              && Debits(swaps)(t) == Unit(p, t, 1) + Unit(q, t, U256_MAX) + Unit(r, t, 1)
    {
      SharedTokenSums(pool, p, q, r, t);
    }
    SharedTokenSums(pool, p, q, r, q);
  }

  ghost function Unit(a: Address, t: Address, n: nat): nat {
    if a == t then n else 0
  }

  // ----- The cycle -----

  /** Swaps, by position, each spending what the one before it bought. */
  ghost predicate IsWalk(swaps: seq<Swap>, walk: seq<nat>) {
    && walk != []
    && (forall i | 0 <= i < |walk| :: walk[i] < |swaps|)
    && (forall i | 0 <= i < |walk| - 1 :: swaps[walk[i]].tokenOut == swaps[walk[i + 1]].tokenIn)
  }

  ghost predicate IsClosed(swaps: seq<Swap>, walk: seq<nat>) {
    IsWalk(swaps, walk) && swaps[walk[|walk| - 1]].tokenOut == swaps[walk[0]].tokenIn
  }

  /** A closed walk that visits every token on it once. */
  ghost predicate IsCycle(swaps: seq<Swap>, walk: seq<nat>) {
    IsClosed(swaps, walk) && forall i, j | 0 <= i < j < |walk| :: swaps[walk[i]].tokenIn != swaps[walk[j]].tokenIn
  }

  lemma {:induction false} BoughtTokens(swaps: seq<Swap>, i: nat)
    requires i < |swaps| && forall s <- swaps :: s.amountOut > 0
    ensures Received(swaps, swaps[i].tokenOut) > 0
    decreases |swaps|
  {
    var n := |swaps| - 1;
    assert swaps[n] in swaps;
    if i < n {
      assert forall s <- swaps[..n] :: s in swaps;
      BoughtTokens(swaps[..n], i);
    }
  }

  lemma {:induction false} SpentTokens(swaps: seq<Swap>, t: Address) returns (i: nat)
    requires Spent(swaps, t) > 0
    ensures i < |swaps| && swaps[i].tokenIn == t
    decreases |swaps|
  {
    var n := |swaps| - 1;
    if swaps[n].tokenIn == t {
      i := n;
    } else {
      i := SpentTokens(swaps[..n], t);
    }
  }

  /** What a swap bought, another one spent. */
  lemma {:induction false} GoesOn(swaps: seq<Swap>, t: Address, gain: nat, i: nat) returns (k: nat)
    requires SoleProfit(Credits(swaps), Debits(swaps), t, gain) && (forall s <- swaps :: s.amountOut > 0) && i < |swaps|
    ensures k < |swaps| && swaps[k].tokenIn == swaps[i].tokenOut
  {
    var u := swaps[i].tokenOut;
    BoughtTokens(swaps, i);
    assert Credits(swaps)(u) > 0;
    assert Debits(swaps)(u) > 0;
    k := SpentTokens(swaps, u);
  }

  lemma {:induction false} LongWalk(swaps: seq<Swap>, t: Address, gain: nat, length: nat) returns (walk: seq<nat>)
    requires SoleProfit(Credits(swaps), Debits(swaps), t, gain) && (forall s <- swaps :: s.amountOut > 0) && length > 0
    ensures IsWalk(swaps, walk) && |walk| == length && swaps[walk[0]].tokenIn == t
    decreases length
  {
    if length == 1 {
      var i := SpentTokens(swaps, t);
      walk := [i];
    } else {
      walk := LongWalk(swaps, t, gain, length - 1);
      var k := GoesOn(swaps, t, gain, walk[length - 2]);
      walk := walk + [k];
    }
  }

  /** A walk longer than there are swaps comes back to one of them. */
  lemma {:induction false} ComesBack(swaps: seq<Swap>, walk: seq<nat>) returns (closed: seq<nat>)
    requires IsWalk(swaps, walk) && |walk| > |swaps|
    ensures IsClosed(swaps, closed)
  {
    if NoDup(walk) {
      NoDupSize(walk);
      SubsetSize(Elements(walk), Positions(|swaps|));
      assert false;
    }
    var i, j :| 0 <= i < j < |walk| && walk[i] == walk[j];
    closed := walk[i..j];
  }

  ghost function Positions(n: nat): (ps: set<nat>)
    ensures |ps| == n && forall p: nat :: p in ps <==> p < n
  {
    if n == 0 then {} else Positions(n - 1) + {n - 1}
  }

  lemma {:induction false} Shorten(swaps: seq<Swap>, closed: seq<nat>) returns (cycle: seq<nat>)
    requires IsClosed(swaps, closed)
    ensures IsCycle(swaps, cycle)
    decreases |closed|
  {
    if i, j :| 0 <= i < j < |closed| && swaps[closed[i]].tokenIn == swaps[closed[j]].tokenIn {
      cycle := Shorten(swaps, closed[i..j]);
    } else {
      cycle := closed;
    }
  }

  /** When a profit is reported and every swap bought something, the swaps hold a cycle of tokens. */
  lemma {:induction false} ProfitMeansCycle(swaps: seq<Swap>, t: Address, gain: nat) returns (cycle: seq<nat>)
    requires SoleProfit(Credits(swaps), Debits(swaps), t, gain) && forall s <- swaps :: s.amountOut > 0
    ensures IsCycle(swaps, cycle)
  {
    var walk := LongWalk(swaps, t, gain, |swaps| + 1);
    var closed := ComesBack(swaps, walk);
    cycle := Shorten(swaps, closed);
  }

  // ----- A cycle through the profit token -----

  /** No token is spent by two swaps. */
  ghost predicate SpendsApart(swaps: seq<Swap>) {
    forall i, j | 0 <= i < j < |swaps| :: swaps[i].tokenIn != swaps[j].tokenIn
  }

  ghost predicate BuysApart(swaps: seq<Swap>) {
    forall i, j | 0 <= i < j < |swaps| :: swaps[i].tokenOut != swaps[j].tokenOut
  }

  lemma {:induction false} SpendingCounts(swaps: seq<Swap>, i: nat)
    requires i < |swaps| && swaps[i].amountIn > 0
    ensures Spent(swaps, swaps[i].tokenIn) > 0
    decreases |swaps|
  {
    if i < |swaps| - 1 { SpendingCounts(swaps[..|swaps| - 1], i); }
  }

  lemma {:induction false} BuyerOf(swaps: seq<Swap>, t: Address) returns (i: nat)
    requires Received(swaps, t) > 0
    ensures i < |swaps| && swaps[i].tokenOut == t
    decreases |swaps|
  {
    var n := |swaps| - 1;
    if swaps[n].tokenOut == t {
      i := n;
    } else {
      i := BuyerOf(swaps[..n], t);
    }
  }

  /** Each spent token was bought, so as many spent tokens as swaps leave no token bought twice. */
  lemma {:induction false} SpentApartIsBoughtApart(swaps: seq<Swap>, t: Address, gain: nat)
    requires SoleProfit(Credits(swaps), Debits(swaps), t, gain) && SpendsApart(swaps)
    requires forall s <- swaps :: s.amountIn > 0
    ensures BuysApart(swaps)
  {
    var ins := seq(|swaps|, i requires 0 <= i < |swaps| => swaps[i].tokenIn);
    var outs := seq(|swaps|, i requires 0 <= i < |swaps| => swaps[i].tokenOut);
    forall u <- ins ensures u in outs {
      var i :| 0 <= i < |swaps| && ins[i] == u;
      SpendingCounts(swaps, i);
      assert Debits(swaps)(u) > 0;
      assert Credits(swaps)(u) > 0;
      var k := BuyerOf(swaps, u);
      assert outs[k] == u;
    }
    Pigeonhole(ins, outs);
    forall i, j | 0 <= i < j < |swaps| ensures swaps[i].tokenOut != swaps[j].tokenOut {
      assert outs[i] != outs[j];
    }
  }

  /** Where each token is bought once, a walk that meets itself first meets its start. */
  lemma {:induction false} MeetsItsStart(swaps: seq<Swap>, walk: seq<nat>, i: nat, j: nat)
    requires IsWalk(swaps, walk) && BuysApart(swaps) && i < j < |walk| && walk[i] == walk[j]
    ensures walk[j - i] == walk[0]
    decreases i
  {
    if i > 0 {
      assert swaps[walk[i - 1]].tokenOut == swaps[walk[j - 1]].tokenOut;
      MeetsItsStart(swaps, walk, i - 1, j - 1);
    }
  }

  lemma {:induction false} CycleFromStart(swaps: seq<Swap>, walk: seq<nat>, d: nat) returns (cycle: seq<nat>)
    requires IsWalk(swaps, walk) && BuysApart(swaps) && SpendsApart(swaps) && 0 < d < |walk| && walk[d] == walk[0]
    ensures IsCycle(swaps, cycle) && cycle[0] == walk[0]
    decreases d
  {
    if i, j :| 0 <= i < j < d && swaps[walk[i]].tokenIn == swaps[walk[j]].tokenIn {
      MeetsItsStart(swaps, walk, i, j);
      cycle := CycleFromStart(swaps, walk, j - i);
    } else {
      cycle := walk[..d];
      assert swaps[walk[d - 1]].tokenOut == swaps[walk[d]].tokenIn;
    }
  }

  /** When every amount is positive and no two swaps spend the same token, a cycle passes through the profit token. */
  lemma {:induction false} ProfitIsOnACycle(swaps: seq<Swap>, t: Address, gain: nat) returns (cycle: seq<nat>)
    requires SoleProfit(Credits(swaps), Debits(swaps), t, gain) && SpendsApart(swaps)
    requires forall s <- swaps :: s.amountIn > 0 && s.amountOut > 0
    ensures IsCycle(swaps, cycle) && swaps[cycle[0]].tokenIn == t
  {
    SpentApartIsBoughtApart(swaps, t, gain);
    var walk := LongWalk(swaps, t, gain, |swaps| + 1);
    if NoDup(walk) {
      NoDupSize(walk);
      SubsetSize(Elements(walk), Positions(|swaps|));
      assert false;
    }
    var i, j :| 0 <= i < j < |walk| && walk[i] == walk[j];
    MeetsItsStart(swaps, walk, i, j);
    cycle := CycleFromStart(swaps, walk, j - i);
  }

  /** Two separate loops, and the profit token spent into one of them and bought out of the other. */
  ghost function TwoLoops(pool: Address, p: Address, x: Address, z: Address, y: Address, w: Address): seq<Swap> {
    [Swap(pool, p, x, 1, 1), Swap(pool, x, z, 2, 1), Swap(pool, z, x, 1, 1),
     Swap(pool, w, y, 1, 2), Swap(pool, y, w, 1, 1), Swap(pool, y, p, 1, 2)]
  }

  /** Two lists after one another. */
  lemma {:induction false} SumsConcat(a: seq<Swap>, b: seq<Swap>, t: Address)
    ensures Received(a + b, t) == Received(a, t) + Received(b, t) && Spent(a + b, t) == Spent(a, t) + Spent(b, t)
    decreases |b|
  {
    if b == [] {
      assert a + b == a;
    } else {
      var n := |b| - 1;
      assert (a + b)[..|a + b| - 1] == a + b[..n];
      SumsConcat(a, b[..n], t);
    }
  }

  lemma {:induction false} SumsOfThree(a: Swap, b: Swap, c: Swap, t: Address)
    ensures Received([a, b, c], t) == Unit(a.tokenOut, t, a.amountOut) + Unit(b.tokenOut, t, b.amountOut) + Unit(c.tokenOut, t, c.amountOut)
    ensures Spent([a, b, c], t) == Unit(a.tokenIn, t, a.amountIn) + Unit(b.tokenIn, t, b.amountIn) + Unit(c.tokenIn, t, c.amountIn)
  {
    var none: seq<Swap> := [];
    SumsNext(none, a, t);
    SumsNext([a], b, t);
    SumsNext([a, b], c, t);
    assert none + [a] == [a] && [a] + [b] == [a, b] && [a, b] + [c] == [a, b, c];
  }

  lemma {:induction false} TwoLoopsSums(pool: Address, p: Address, x: Address, z: Address, y: Address, w: Address,
                                        t: Address)
    ensures Received(TwoLoops(pool, p, x, z, y, w), t)
         == Unit(x, t, 2) + Unit(z, t, 1) + Unit(y, t, 2) + Unit(w, t, 1) + Unit(p, t, 2)
    ensures Spent(TwoLoops(pool, p, x, z, y, w), t)
         == Unit(p, t, 1) + Unit(x, t, 2) + Unit(z, t, 1) + Unit(w, t, 1) + Unit(y, t, 2)
  {
    var a, b, c := Swap(pool, p, x, 1, 1), Swap(pool, x, z, 2, 1), Swap(pool, z, x, 1, 1);
    var d, e, f := Swap(pool, w, y, 1, 2), Swap(pool, y, w, 1, 1), Swap(pool, y, p, 1, 2);
    SumsOfThree(a, b, c, t);
    SumsOfThree(d, e, f, t);
    SumsConcat([a, b, c], [d, e, f], t);
    assert [a, b, c] + [d, e, f] == TwoLoops(pool, p, x, z, y, w);
  }

  lemma {:induction false} StaysInLoop(pool: Address, p: Address, x: Address, z: Address, y: Address, w: Address,
                                       walk: seq<nat>, i: nat)
    requires p != x && p != z && p != y && p != w && x != y && x != w && z != y && z != w
    requires IsWalk(TwoLoops(pool, p, x, z, y, w), walk) && i < |walk|
    requires TwoLoops(pool, p, x, z, y, w)[walk[0]].tokenIn == p
    ensures TwoLoops(pool, p, x, z, y, w)[walk[i]].tokenOut in {x, z}
    decreases i
  {
    if i > 0 { StaysInLoop(pool, p, x, z, y, w, walk, i - 1); }
  }

  /** The cycle need not pass through the profit token. */
  lemma {:induction false} ProfitOutsideTheCycles(pool: Address, p: Address, x: Address, z: Address, y: Address,
                                                  w: Address)
    requires p != x && p != z && p != y && p != w && x != z && x != y && x != w && z != y && z != w && y != w
    ensures var swaps := TwoLoops(pool, p, x, z, y, w);
            && SoleProfit(Credits(swaps), Debits(swaps), p, 1)
            && (forall s <- swaps :: s.amountIn > 0 && s.amountOut > 0)
            && forall walk :: IsClosed(swaps, walk) ==> swaps[walk[0]].tokenIn != p
  {
    var swaps := TwoLoops(pool, p, x, z, y, w);
    forall t: Address ensures Credits(swaps)(t) == Received(swaps, t) && Debits(swaps)(t) == Spent(swaps, t) {
      TwoLoopsSums(pool, p, x, z, y, w, t);
    }
    TwoLoopsSums(pool, p, x, z, y, w, p);
    forall t: Address | t != p ensures Credits(swaps)(t) == Debits(swaps)(t) {
      TwoLoopsSums(pool, p, x, z, y, w, t);
    }
    forall walk | IsClosed(swaps, walk) ensures swaps[walk[0]].tokenIn != p {
      if swaps[walk[0]].tokenIn == p {
        StaysInLoop(pool, p, x, z, y, w, walk, |walk| - 1);
      }
    }
  }
}
