/**
 A moving-block bootstrap for a false-positive rate over replay windows: runs of
 consecutive blocks are resampled by a seeded generator, and the upper quantile of the
 resampled rates is read at its nearest rank. Rates and quantiles are reals.
 */
module Bootstrap {
  import opened Common
  import opened Scoring

  // ----- The generator, on 64-bit words -----

  function Pow2(bits: nat): (p: nat)
    ensures p > 0
  {
    if bits == 0 then 1 else 2 * Pow2(bits - 1)
  }

  /** Exclusive or of the low bits of two numbers. */
  function Xor(a: nat, b: nat, bits: nat): (r: nat)
    ensures r < Pow2(bits)
  {
    if bits == 0 then 0 else (a + b) % 2 + 2 * Xor(a / 2, b / 2, bits - 1)
  }

  lemma {:induction false} Pow2Adds(a: nat, b: nat)
    ensures Pow2(a + b) == Pow2(a) * Pow2(b)
    decreases a
  {
    if a > 0 {
      Pow2Adds(a - 1, b);
      assert Pow2(a + b) == 2 * Pow2(a - 1 + b);
    }
  }

  lemma {:induction false} WordIs64Bits()
    ensures Pow2(64) == TWO_64
  {
    assert Pow2(4) == 16 by { assert Pow2(2) == 4; }
    Pow2Adds(4, 4);
    Pow2Adds(8, 8);
    Pow2Adds(16, 16);
    Pow2Adds(32, 32);
  }

  function XorWord(a: Word, b: Word): Word {
    WordIs64Bits();
    Xor(a, b, 64)
  }

  function Wrap(x: nat): Word {
    x % TWO_64
  }

  function ShiftRight(z: Word, bits: nat): (r: Word)
    ensures r <= z
  {
    if bits == 0 then z else ShiftRight(z / 2, bits - 1)
  }

  /** How a generator goes on and what it shows of its state. */
  datatype Generator = Generator(next: Word -> Word, mix: Word -> Word)

  function SplitMix64(): Generator {
    Generator((s: Word) => Wrap(s + GAMMA), Finish)
  }

  function Finish(s: Word): Word {
    var y := Round(s, 30, 0xBF58_476D_1CE4_E5B9);
    var z := Round(y, 27, 0x94D0_49BB_1331_11EB);
    XorWord(z, ShiftRight(z, 31))
  }

  function Round(z: Word, shift: nat, factor: Word): Word {
    Wrap(Times(XorWord(z, ShiftRight(z, shift)), factor))
  }

  function Times(a: nat, b: nat): nat {
    a * b
  }

  const GAMMA: nat := 0x9E37_79B9_7F4A_7C15

  /** The state after a number of draws. */
  ghost function Drawn(g: Generator, seed: Word, draws: nat): Word {
    if draws == 0 then seed else g.next(Drawn(g, seed, draws - 1))
  }

  lemma {:induction false} DrawnIs(seed: Word, draws: nat)
    ensures Drawn(SplitMix64(), seed, draws) == (seed + Times(draws, GAMMA)) % TWO_64
    decreases draws
  {
    if draws > 0 {
      DrawnIs(seed, draws - 1);
      var before := Drawn(SplitMix64(), seed, draws - 1);
      assert SplitMix64().next(before) == Wrap(before + GAMMA);
      WrapAdds(seed + Times(draws - 1, GAMMA), GAMMA);
      assert Times(draws, GAMMA) == Times(draws - 1, GAMMA) + GAMMA;
    } else {
      assert Times(draws, GAMMA) == 0;
    }
  }

  lemma {:induction false} WrapAdds(x: nat, y: nat)
    ensures (x % TWO_64 + y) % TWO_64 == (x + y) % TWO_64
  {}

  /** An odd factor brings a number to a multiple of a power of two only if it is one. */
  lemma {:induction false} OddFactor(k: nat, odd: nat, bits: nat, q: nat) returns (r: nat)
    requires odd % 2 == 1 && Times(k, odd) == Times(q, Pow2(bits))
    ensures k == Times(r, Pow2(bits))
    decreases bits
  {
    if bits == 0 {
      r := k;
    } else {
      var half := Pow2(bits - 1);
      assert Times(q, Pow2(bits)) == 2 * Times(q, half);
      EvenFactor(k, odd, Times(q, half));
      r := OddFactor(k / 2, odd, bits - 1, q);
      assert Times(r, Pow2(bits)) == 2 * Times(r, half);
    }
  }

  lemma {:induction false} EvenFactor(k: nat, odd: nat, n: nat)
    requires odd % 2 == 1 && Times(k, odd) == 2 * n
    ensures k % 2 == 0 && Times(k / 2, odd) == n
  {
    var h, o := k / 2, odd / 2;
    assert odd == 2 * o + 1;
    assert k == 2 * h + k % 2;
    assert Times(k, odd) == 2 * (h * odd) + (k % 2) * odd;
    assert 2 * n == 2 * (h * odd + (k % 2) * o) + k % 2;
  }

  lemma {:induction false} BackOnlyAfterAll(seed: Word, draws: nat)
    requires (seed + Times(draws, GAMMA)) % TWO_64 == seed
    ensures draws % TWO_64 == 0
  {
    WordIs64Bits();
    var q := (seed + Times(draws, GAMMA)) / TWO_64;
    assert Times(draws, GAMMA) == Times(q, Pow2(64));
    var r := OddFactor(draws, GAMMA, 64, q);
    assert draws == r * TWO_64;
  }

  lemma {:induction false} BackAfterAll(seed: Word, r: nat)
    ensures (seed + Times(r * TWO_64, GAMMA)) % TWO_64 == seed
  {
    TimesInside(r, TWO_64, GAMMA);
    MultiplesVanish(seed, Times(r, GAMMA));
  }

  lemma {:induction false} TimesInside(r: nat, m: nat, g: nat)
    ensures Times(r * m, g) == m * Times(r, g)
  {
    assert r * m * g == m * (r * g);
  }

  lemma {:induction false} MultiplesVanish(x: Word, n: nat)
    ensures (x + TWO_64 * n) % TWO_64 == x
  {}

  /** The generator is back at a state exactly after going through all 2^64 of them. */
  lemma {:induction false} StatesRepeatIff(seed: Word, draws: nat)
    ensures Drawn(SplitMix64(), seed, draws) == seed <==> draws % TWO_64 == 0
  {
    DrawnIs(seed, draws);
    if draws % TWO_64 == 0 {
      BackAfterAll(seed, draws / TWO_64);
    } else if Drawn(SplitMix64(), seed, draws) == seed {
      BackOnlyAfterAll(seed, draws);
    }
  }

  /** A word scaled to `0..bound` by a multiply and a shift. */
  function Scale(z: Word, bound: nat): (k: nat)
    ensures bound > 0 ==> k < bound
  {
    if bound > 0 then ScaledInRange(z, bound); z * bound / TWO_64 else 0
  }

  lemma {:induction false} ScaledInRange(z: nat, bound: nat)
    requires z < TWO_64 && bound > 0
    ensures z * bound / TWO_64 < bound
  {
    assert z * bound < TWO_64 * bound by { TimesLess(z, TWO_64, bound); }
  }

  lemma {:induction false} TimesLess(a: nat, b: nat, c: nat)
    requires a < b && c > 0
    ensures a * c < b * c
  {}

  class Rng {
    const gen: Generator
    var state: Word

    constructor (gen: Generator, seed: Word)
      ensures this.gen == gen && state == seed
    {
      this.gen := gen;
      state := seed;
    }

    method Below(bound: nat) returns (k: nat)
      modifies this
      ensures state == gen.next(old(state)) && k == Scale(gen.mix(state), bound)
    {
      state := gen.next(state);
      k := Scale(gen.mix(state), bound);
    }
  }

  // ----- One replicate -----

  function Clamp(x: nat, low: nat, high: nat): nat {
    if x < low then low else if x > high then high else x
  }

  /** The blocks resampled from a window of `n`, by position: runs of `len`, the last one cut short. */
  ghost function Picks(n: nat, len: nat, g: Generator, s: Word, filled: nat): seq<nat>
    requires 1 <= len <= n && filled <= n
    decreases n - filled
  {
    if filled == n then [] else
    var take := Min(len, n - filled);
    Run(Scale(g.mix(g.next(s)), n - len + 1), take) + Picks(n, len, g, g.next(s), filled + take)
  }

  ghost function Run(start: nat, take: nat): seq<nat> {
    if take == 0 then [] else Run(start, take - 1) + [start + take - 1]
  }

  /** The generator once a window is filled. */
  ghost function Filled(n: nat, len: nat, g: Generator, s: Word, filled: nat): Word
    requires 1 <= len <= n && filled <= n
    decreases n - filled
  {
    if filled == n then s else Filled(n, len, g, g.next(s), filled + Min(len, n - filled))
  }

  lemma {:induction false} RunIs(start: nat, take: nat)
    ensures |Run(start, take)| == take && forall i | 0 <= i < take :: Run(start, take)[i] == start + i
    decreases take
  {
    if take > 0 { RunIs(start, take - 1); }
  }

  /** Exactly as many blocks are taken from a window as it has, all of them its own. */
  lemma {:induction false} PicksFillTheWindow(n: nat, len: nat, g: Generator, s: Word, filled: nat)
    requires 1 <= len <= n && filled <= n
    ensures |Picks(n, len, g, s, filled)| == n - filled
    ensures Within(Picks(n, len, g, s, filled), n)
    decreases n - filled
  {
    if filled < n {
      var take := Min(len, n - filled);
      var start := Scale(g.mix(g.next(s)), n - len + 1);
      RunIs(start, take);
      PicksFillTheWindow(n, len, g, g.next(s), filled + take);
    }
  }

  /** Every run starts where it is drawn and goes on block after block. */
  lemma {:induction false} PicksAreRuns(n: nat, len: nat, g: Generator, s: Word, filled: nat, i: nat)
    requires 1 <= len <= n && filled <= n && filled % len == 0
    requires i + 1 < n - filled && (i + 1) % len != 0
    ensures |Picks(n, len, g, s, filled)| == n - filled
    ensures Picks(n, len, g, s, filled)[i + 1] == Picks(n, len, g, s, filled)[i] + 1
    decreases n - filled
  {
    PicksFillTheWindow(n, len, g, s, filled);
    var take := Min(len, n - filled);
    RunIs(Scale(g.mix(g.next(s)), n - len + 1), take);
    PicksFillTheWindow(n, len, g, g.next(s), filled + take);
    if i + 1 >= take {
      LaterRun(filled, len, i);
      PicksAreRuns(n, len, g, g.next(s), filled + take, i - take);
    }
  }

  lemma {:induction false} LaterRun(filled: nat, len: nat, i: nat)
    requires len >= 1 && filled % len == 0 && i + 1 >= len && (i + 1) % len != 0
    ensures i >= len && (filled + len) % len == 0 && (i - len + 1) % len != 0
  {
    PlusModulus(filled, len);
    PlusModulus(i + 1 - len, len);
    PlusModulus(0, len);
  }

  lemma {:induction false} PlusModulus(a: nat, n: nat)
    requires n > 0
    ensures (a + n) % n == a % n
  {
    var q := (a + n) / n - a / n - 1;
    assert n * q == a % n - (a + n) % n by {
      assert a == n * (a / n) + a % n;
      assert a + n == n * ((a + n) / n) + (a + n) % n;
    }
    var m: int := n;
    assert -m < m * q < m;
    SmallMultiple(n, q);
  }

  lemma {:induction false} SmallMultiple(n: int, q: int)
    requires -n < n * q < n
    ensures q == 0
  {}

  ghost predicate Within(picks: seq<nat>, n: nat) {
    forall i | 0 <= i < |picks| :: picks[i] < n
  }

  /** Tallies of resampled blocks, added up. */
  ghost function Picked(window: seq<BlockTally>, picks: seq<nat>): BlockTally
    requires Within(picks, |window|)
  {
    if picks == [] then BlockTally(0, 0) else
    Add(Picked(window, picks[..|picks| - 1]), window[picks[|picks| - 1]])
  }

  function Add(a: BlockTally, b: BlockTally): BlockTally {
    BlockTally(a.confirmed + b.confirmed, a.refuted + b.refuted)
  }

  lemma {:induction false} PickedAppend(window: seq<BlockTally>, a: seq<nat>, b: seq<nat>)
    requires Within(a, |window|) && Within(b, |window|)
    ensures Picked(window, a + b) == Add(Picked(window, a), Picked(window, b))
    decreases |b|
  {
    if b == [] {
      assert a + b == a;
    } else {
      assert (a + b)[..|a + b| - 1] == a + b[..|b| - 1];
      PickedAppend(window, a, b[..|b| - 1]);
    }
  }

  /** The length of the runs taken from a window of `n`. */
  function RunLength(blockLen: nat, n: nat): nat {
    Clamp(blockLen, 1, n)
  }

  /** The tallies of `take` blocks from `start`. */
  ghost function RunTally(window: seq<BlockTally>, start: nat, take: nat): BlockTally
    requires start + take <= |window|
  {
    if take == 0 then BlockTally(0, 0) else Add(RunTally(window, start, take - 1), window[start + take - 1])
  }

  /** What the runs still to be drawn from a window will add. */
  ghost function RunsTally(window: seq<BlockTally>, len: nat, g: Generator, s: Word, filled: nat): BlockTally
    requires 1 <= len <= |window| && filled <= |window|
    decreases |window| - filled
  {
    if filled == |window| then BlockTally(0, 0) else
    var take := Min(len, |window| - filled);
    Add(RunTally(window, Scale(g.mix(g.next(s)), |window| - len + 1), take),
        RunsTally(window, len, g, g.next(s), filled + take))
  }

  lemma {:induction false} RunIsPicked(window: seq<BlockTally>, start: nat, take: nat)
    requires start + take <= |window|
    ensures Within(Run(start, take), |window|)
    ensures Picked(window, Run(start, take)) == RunTally(window, start, take)
    decreases take
  {
    RunIs(start, take);
    if take > 0 {
      RunIsPicked(window, start, take - 1);
      assert Run(start, take)[..take - 1] == Run(start, take - 1);
    }
  }

  /** The runs of a window add up the blocks picked. */
  lemma {:induction false} RunsArePicked(window: seq<BlockTally>, len: nat, g: Generator, s: Word, filled: nat)
    requires 1 <= len <= |window| && filled <= |window|
    ensures Within(Picks(|window|, len, g, s, filled), |window|)
    ensures Picked(window, Picks(|window|, len, g, s, filled)) == RunsTally(window, len, g, s, filled)
    decreases |window| - filled
  {
    if filled < |window| {
      var take := Min(len, |window| - filled);
      RunIsPicked(window, Scale(g.mix(g.next(s)), |window| - len + 1), take);
      RunsArePicked(window, len, g, g.next(s), filled + take);
      PickedAppend(window, Run(Scale(g.mix(g.next(s)), |window| - len + 1), take),
                   Picks(|window|, len, g, g.next(s), filled + take));
    }
  }

  ghost function WindowTally(window: seq<BlockTally>, blockLen: nat, g: Generator, s: Word): BlockTally
    requires window != []
  {
    RunsTally(window, RunLength(blockLen, |window|), g, s, 0)
  }

  /** A window's tally is that of exactly as many of its blocks as it has. */
  lemma {:induction false} WindowTallyIsPicked(window: seq<BlockTally>, blockLen: nat, g: Generator, s: Word)
    requires window != []
    ensures var n := |window|;
            var picks := Picks(n, RunLength(blockLen, n), g, s, 0);
            |picks| == n && Within(picks, n) && WindowTally(window, blockLen, g, s) == Picked(window, picks)
  {
    PicksFillTheWindow(|window|, RunLength(blockLen, |window|), g, s, 0);
    RunsArePicked(window, RunLength(blockLen, |window|), g, s, 0);
  }

  lemma {:induction false} AddAssociates(a: BlockTally, b: BlockTally, c: BlockTally)
    ensures Add(Add(a, b), c) == Add(a, Add(b, c))
  {}

  /** Add up one run of a window. */
  method AddRun(window: seq<BlockTally>, start: nat, take: nat, from: BlockTally) returns (t: BlockTally)
    requires start + take <= |window|
    ensures t == Add(from, RunTally(window, start, take))
  {
    t := from;
    for i := 0 to take
      invariant t == Add(from, RunTally(window, start, i))
    {
      t := Add(t, window[start + i]);
    }
  }

  method ResampleWindow(rng: Rng, window: seq<BlockTally>, blockLen: nat) returns (t: BlockTally)
    requires window != []
    modifies rng
    ensures t == WindowTally(window, blockLen, rng.gen, old(rng.state))
    ensures rng.state == Filled(|window|, RunLength(blockLen, |window|), rng.gen, old(rng.state), 0)
  {
    var n := |window|;
    var len := RunLength(blockLen, n);
    var filled := 0;
    t := BlockTally(0, 0);
    ghost var g, s := rng.gen, rng.state;
    while filled < n
      invariant filled <= n
      invariant Filled(n, len, g, rng.state, filled) == Filled(n, len, g, s, 0)
      invariant Add(t, RunsTally(window, len, g, rng.state, filled)) == RunsTally(window, len, g, s, 0)
    {
      ghost var before, rest := t, RunsTally(window, len, g, g.next(rng.state), filled + Min(len, n - filled));
      var start := rng.Below(n - len + 1);
      var take := Min(len, n - filled);
      t := AddRun(window, start, take, t);
      AddAssociates(before, RunTally(window, start, take), rest);
      filled := filled + take;
    }
  }

  /** One replicate: every window resampled in turn. */
  ghost function ReplicateTally(windows: seq<seq<BlockTally>>, blockLen: nat, g: Generator, s: Word, k: nat): BlockTally
    requires k <= |windows| && forall i | 0 <= i < |windows| :: windows[i] != []
  {
    if k == 0 then BlockTally(0, 0) else
    Add(ReplicateTally(windows, blockLen, g, s, k - 1),
        WindowTally(windows[k - 1], blockLen, g, StateAt(windows, blockLen, g, s, k - 1)))
  }

  /** The generator once the first windows are resampled. */
  ghost function StateAt(windows: seq<seq<BlockTally>>, blockLen: nat, g: Generator, s: Word, k: nat): Word
    requires k <= |windows| && forall i | 0 <= i < |windows| :: windows[i] != []
  {
    if k == 0 then s else
    var n := |windows[k - 1]|;
    Filled(n, RunLength(blockLen, n), g, StateAt(windows, blockLen, g, s, k - 1), 0)
  }

  method Resample(rng: Rng, windows: seq<seq<BlockTally>>, blockLen: nat) returns (t: BlockTally)
    requires forall i | 0 <= i < |windows| :: windows[i] != []
    modifies rng
    ensures t == ReplicateTally(windows, blockLen, rng.gen, old(rng.state), |windows|)
    ensures rng.state == StateAt(windows, blockLen, rng.gen, old(rng.state), |windows|)
  {
    t := BlockTally(0, 0);
    for k := 0 to |windows|
      invariant t == ReplicateTally(windows, blockLen, rng.gen, old(rng.state), k)
      invariant rng.state == StateAt(windows, blockLen, rng.gen, old(rng.state), k)
    {
      var more := ResampleWindow(rng, windows[k], blockLen);
      t := Add(t, more);
    }
  }

  // ----- The quantile of the resampled rates -----

  function Rate(t: BlockTally): (r: Option<real>)
    ensures r.Some? <==> t.confirmed + t.refuted > 0
    ensures r.Some? ==> 0.0 <= r.value <= 1.0
  {
    var total := t.confirmed + t.refuted;
    if total == 0 then None else
    ShareInUnit(t.refuted, total);
    Some(t.refuted as real / total as real)
  }

  lemma {:induction false} ShareInUnit(k: nat, n: nat)
    requires k <= n && n > 0
    ensures 0.0 <= k as real / n as real <= 1.0
  {
    var q := k as real / n as real;
    assert q * n as real == k as real;
    assert q < 0.0 ==> q * n as real < 0.0;
    assert q > 1.0 ==> (q - 1.0) * n as real > 0.0;
  }

  ghost predicate NoneEmpty(windows: seq<seq<BlockTally>>) {
    forall i | 0 <= i < |windows| :: windows[i] != []
  }

  /** The generator before replicate `i`. */
  ghost function Before(windows: seq<seq<BlockTally>>, blockLen: nat, g: Generator, seed: Word, i: nat): Word
    requires NoneEmpty(windows)
  {
    if i == 0 then seed else StateAt(windows, blockLen, g, Before(windows, blockLen, g, seed, i - 1), |windows|)
  }

  ghost function Replicate(windows: seq<seq<BlockTally>>, blockLen: nat, g: Generator, seed: Word, i: nat): BlockTally
    requires NoneEmpty(windows)
  {
    ReplicateTally(windows, blockLen, g, Before(windows, blockLen, g, seed, i), |windows|)
  }

  ghost function Replicates(windows: seq<seq<BlockTally>>, blockLen: nat, g: Generator, seed: Word,
                            n: nat): seq<BlockTally>
    requires NoneEmpty(windows)
  {
    if n == 0 then [] else
    Replicates(windows, blockLen, g, seed, n - 1) + [Replicate(windows, blockLen, g, seed, n - 1)]
  }

  /** What each replicate says of the rate. */
  function Shares(ts: seq<BlockTally>): seq<Option<real>> {
    seq(|ts|, i requires 0 <= i < |ts| => Rate(ts[i]))
  }

  /** The rates of the replicates that have one. */
  function Rates(shares: seq<Option<real>>): seq<real> {
    if shares == [] then [] else
    Rates(shares[..|shares| - 1]) + match shares[|shares| - 1] case Some(q) => [q] case None => []
  }

  function Undefined(shares: seq<Option<real>>): nat {
    if shares == [] then 0 else
    Undefined(shares[..|shares| - 1]) + if shares[|shares| - 1].None? then 1 else 0
  }

  /** The rate of every replicate, zero for one with no verdict at all. */
  function Values(shares: seq<Option<real>>): seq<real> {
    if shares == [] then [] else
    Values(shares[..|shares| - 1]) + match shares[|shares| - 1] case Some(q) => [q] case None => [0.0]
  }

  function Insert(x: real, s: seq<real>): seq<real> {
    if s == [] || x <= s[0] then [x] + s else [s[0]] + Insert(x, s[1..])
  }

  function Sorted(s: seq<real>): seq<real> {
    if s == [] then [] else Insert(s[|s| - 1], Sorted(s[..|s| - 1]))
  }

  function Rank(quantile: real, replicates: nat): nat {
    var r := Ceil(quantile * replicates as real);
    if r < 0 then 0 else r
  }

  function AllowedUndefined(quantile: real, replicates: nat): int {
    ((1.0 - quantile) * replicates as real).Floor
  }

  function SaturatingSub(a: nat, b: nat): nat {
    if a < b then 0 else a - b
  }

  /** The element of the sorted rates at a rank among all replicates. */
  function ReadAt(rates: seq<real>, undefined: nat, allowed: int, rank: nat): Option<real> {
    if undefined > allowed then None else
    var sorted := Sorted(rates);
    var index := SaturatingSub(SaturatingSub(rank, 1), undefined);
    var at := Min(index, SaturatingSub(|sorted|, 1));
    if at < |sorted| then Some(sorted[at]) else None
  }

  function Read(rates: seq<real>, undefined: nat, quantile: real, replicates: nat): Option<real> {
    ReadAt(rates, undefined, AllowedUndefined(quantile, replicates), Rank(quantile, replicates))
  }

  function NonEmpty(windows: seq<seq<BlockTally>>): (ws: seq<seq<BlockTally>>)
    ensures NoneEmpty(ws)
  {
    if windows == [] then [] else
    var last := windows[|windows| - 1];
    NonEmpty(windows[..|windows| - 1]) + if last == [] then [] else [last]
  }

  /** The upper quantile of the resampled rate, or nothing when the evidence cannot support one. */
  method UpperBound(g: Generator, windows: seq<seq<BlockTally>>, blockLen: nat, replicates: nat, seed: Word,
                    quantile: real)
    returns (r: Option<real>)
    ensures var ws := NonEmpty(windows);
            r == if ws == [] || replicates == 0 then None else
                 var shares := Shares(Replicates(ws, blockLen, g, seed, replicates));
                 Read(Rates(shares), Undefined(shares), quantile, replicates)
  {
    var ws := NonEmpty(windows);
    if ws == [] || replicates == 0 {
      return None;
    }
    var rng := new Rng(g, seed);
    var rates: seq<real>, undefined := [], 0;
    ghost var ts: seq<BlockTally> := [];
    for i := 0 to replicates
      invariant rng.gen == g && rng.state == Before(ws, blockLen, g, seed, i)
      invariant ts == Replicates(ws, blockLen, g, seed, i)
      invariant rates == Rates(Shares(ts)) && undefined == Undefined(Shares(ts))
    {
      var t := Resample(rng, ws, blockLen);
      match Rate(t) {
        case Some(rate) => rates := rates + [rate];
        case None => undefined := undefined + 1;
      }
      OneMoreShare(ts, t);
      ts := ts + [t];
    }
    r := Read(rates, undefined, quantile, replicates);
  }

  // ----- What the bound is -----

  function CountLess(s: seq<real>, v: real): nat {
    if s == [] then 0 else CountLess(s[..|s| - 1], v) + if s[|s| - 1] < v then 1 else 0
  }

  function CountAtMost(s: seq<real>, v: real): nat {
    if s == [] then 0 else CountAtMost(s[..|s| - 1], v) + if s[|s| - 1] <= v then 1 else 0
  }

  /** `v` is the `rank`-th smallest of some values. */
  ghost predicate IsNearestRank(values: seq<real>, rank: nat, v: real) {
    CountLess(values, v) < rank <= CountAtMost(values, v)
  }

  lemma {:induction false} AtMostIsLess(s: seq<real>, v: real, w: real)
    requires v < w
    ensures CountAtMost(s, v) <= CountLess(s, w)
    decreases |s|
  {
    if s != [] { AtMostIsLess(s[..|s| - 1], v, w); }
  }

  /** There is only one. */
  lemma {:induction false} NearestRankIsUnique(values: seq<real>, rank: nat, v: real, w: real)
    requires IsNearestRank(values, rank, v) && IsNearestRank(values, rank, w)
    ensures v == w
  {
    if v < w { AtMostIsLess(values, v, w); }
    if w < v { AtMostIsLess(values, w, v); }
  }

  ghost predicate Ascending(s: seq<real>) {
    forall i, j | 0 <= i < j < |s| :: s[i] <= s[j]
  }

  lemma {:induction false} CountsOfConcat(a: seq<real>, b: seq<real>, v: real)
    ensures CountLess(a + b, v) == CountLess(a, v) + CountLess(b, v)
    ensures CountAtMost(a + b, v) == CountAtMost(a, v) + CountAtMost(b, v)
    decreases |b|
  {
    if b == [] {
      assert a + b == a;
    } else {
      assert (a + b)[..|a + b| - 1] == a + b[..|b| - 1];
      CountsOfConcat(a, b[..|b| - 1], v);
    }
  }

  lemma {:induction false} InsertKeeps(x: real, s: seq<real>, v: real)
    ensures |Insert(x, s)| == |s| + 1
    ensures CountLess(Insert(x, s), v) == CountLess(s + [x], v)
    ensures CountAtMost(Insert(x, s), v) == CountAtMost(s + [x], v)
    decreases |s|
  {
    if s == [] || x <= s[0] {
      CountsOfConcat([x], s, v);
      CountsOfConcat(s, [x], v);
    } else {
      InsertKeeps(x, s[1..], v);
      CountsOfConcat([s[0]], Insert(x, s[1..]), v);
      assert s + [x] == [s[0]] + (s[1..] + [x]);
      CountsOfConcat([s[0]], s[1..] + [x], v);
    }
  }

  lemma {:induction false} InsertAscends(x: real, s: seq<real>)
    requires Ascending(s)
    ensures Ascending(Insert(x, s))
    ensures forall y <- Insert(x, s) :: y == x || y in s
    decreases |s|
  {
    if s != [] && x > s[0] {
      InsertAscends(x, s[1..]);
      var rest := Insert(x, s[1..]);
      forall j | 0 <= j < |rest| ensures s[0] <= rest[j] {
        assert rest[j] in rest;
      }
    }
  }

  lemma {:induction false} SortedIs(s: seq<real>)
    ensures Ascending(Sorted(s)) && |Sorted(s)| == |s|
    ensures forall y <- Sorted(s) :: y in s
    decreases |s|
  {
    if s != [] {
      SortedIs(s[..|s| - 1]);
      InsertAscends(s[|s| - 1], Sorted(s[..|s| - 1]));
      InsertKeeps(s[|s| - 1], Sorted(s[..|s| - 1]), 0.0);
    }
  }

  lemma {:induction false} SortedKeeps(s: seq<real>, v: real)
    ensures CountLess(Sorted(s), v) == CountLess(s, v) && CountAtMost(Sorted(s), v) == CountAtMost(s, v)
    decreases |s|
  {
    if s != [] {
      var front, x := s[..|s| - 1], s[|s| - 1];
      SortedKeeps(front, v);
      InsertKeeps(x, Sorted(front), v);
      CountsOfConcat(Sorted(front), [x], v);
      CountsOfConcat(front, [x], v);
      assert s == front + [x];
    }
  }

  lemma {:induction false} CountLessBound(s: seq<real>, v: real)
    ensures CountLess(s, v) <= |s|
    decreases |s|
  {
    if s != [] { CountLessBound(s[..|s| - 1], v); }
  }

  lemma {:induction false} AllAtMost(s: seq<real>, v: real)
    requires forall i | 0 <= i < |s| :: s[i] <= v
    ensures CountAtMost(s, v) == |s|
    decreases |s|
  {
    if s != [] { AllAtMost(s[..|s| - 1], v); }
  }

  lemma {:induction false} ElementHasItsRank(s: seq<real>, k: nat)
    requires Ascending(s) && k < |s|
    ensures CountLess(s, s[k]) <= k < CountAtMost(s, s[k])
    decreases |s|
  {
    var n := |s| - 1;
    if k == n {
      CountLessBound(s[..n], s[k]);
      AllAtMost(s, s[k]);
    } else {
      ElementHasItsRank(s[..n], k);
    }
  }

  lemma {:induction false} OneMoreShare(ts: seq<BlockTally>, t: BlockTally)
    ensures Shares(ts + [t]) == Shares(ts) + [Rate(t)]
    ensures Undefined(Shares(ts + [t])) == Undefined(Shares(ts)) + if Rate(t).None? then 1 else 0
    ensures Rates(Shares(ts + [t])) == Rates(Shares(ts)) + match Rate(t) case Some(q) => [q] case None => []
  {
    assert Shares(ts + [t]) == Shares(ts) + [Rate(t)];
    assert (Shares(ts) + [Rate(t)])[..|ts|] == Shares(ts);
  }

  ghost predicate InUnit(shares: seq<Option<real>>) {
    forall i | 0 <= i < |shares| :: shares[i].Some? ==> 0.0 <= shares[i].value <= 1.0
  }

  lemma {:induction false} SharesAreInUnit(ts: seq<BlockTally>)
    ensures InUnit(Shares(ts))
  {}

  lemma {:induction false} ZerosAreLowest(shares: seq<Option<real>>, v: real)
    requires v >= 0.0 && InUnit(shares)
    ensures |Rates(shares)| + Undefined(shares) == |Values(shares)| == |shares|
    ensures CountLess(Values(shares), v) <= CountLess(Rates(shares), v) + Undefined(shares)
    ensures CountAtMost(Values(shares), v) == CountAtMost(Rates(shares), v) + Undefined(shares)
    decreases |shares|
  {
    if shares != [] {
      var front, last := shares[..|shares| - 1], shares[|shares| - 1];
      ZerosAreLowest(front, v);
      match last
      case Some(q) =>
        CountsOfConcat(Values(front), [q], v);
        CountsOfConcat(Rates(front), [q], v);
      case None =>
        CountsOfConcat(Values(front), [0.0], v);
        CountsOfConcat(Rates(front), [], v);
    }
  }

  lemma {:induction false} RatesInUnit(shares: seq<Option<real>>)
    requires InUnit(shares)
    ensures forall q <- Rates(shares) :: 0.0 <= q <= 1.0
    decreases |shares|
  {
    if shares != [] { RatesInUnit(shares[..|shares| - 1]); }
  }

  /** With a quantile over a half, more than half the replicates rank below it. */
  lemma {:induction false} RankBeyondUndefined(quantile: real, replicates: nat)
    requires 0.5 < quantile <= 1.0 && replicates > 0
    ensures AllowedUndefined(quantile, replicates) == replicates - Rank(quantile, replicates)
    ensures AllowedUndefined(quantile, replicates) < Rank(quantile, replicates) <= replicates
  {
    var x := quantile * replicates as real;
    assert 0.5 * replicates as real < x <= replicates as real by { ScaledQuantile(quantile, replicates as real); }
    assert (1.0 - quantile) * replicates as real == replicates as real - x;
  }

  lemma {:induction false} ScaledQuantile(q: real, r: real)
    requires 0.5 < q <= 1.0 && r > 0.0
    ensures 0.5 * r < q * r <= r
  {
    assert (q - 0.5) * r > 0.0 && (1.0 - q) * r >= 0.0;
  }

  lemma {:induction false} SortedElement(rates: seq<real>, k: nat, v: real)
    requires k < |Sorted(rates)| && v == Sorted(rates)[k]
    ensures CountLess(rates, v) <= k < CountAtMost(rates, v) && v in rates
  {
    SortedIs(rates);
    assert v in Sorted(rates);
    ElementHasItsRank(Sorted(rates), k);
    SortedKeeps(rates, v);
  }

  /** The element that is read has its rank among all the replicates. */
  lemma {:induction false} ElementIsNearestRank(shares: seq<Option<real>>, rank: nat, v: real)
    requires InUnit(shares) && Undefined(shares) < rank <= |shares|
    requires var k := rank - 1 - Undefined(shares); k < |Sorted(Rates(shares))| && v == Sorted(Rates(shares))[k]
    ensures IsNearestRank(Values(shares), rank, v) && 0.0 <= v <= 1.0 && v in Rates(shares)
  {
    SortedElement(Rates(shares), rank - 1 - Undefined(shares), v);
    RatesInUnit(shares);
    ZerosAreLowest(shares, v);
  }

  /** With enough replicates rated, no index is clamped. */
  lemma {:induction false} ReadsUnclamped(rates: seq<real>, undefined: nat, allowed: int, rank: nat)
    requires undefined <= allowed && undefined < rank <= undefined + |rates|
    ensures |Sorted(rates)| == |rates|
    ensures ReadAt(rates, undefined, allowed, rank) == Some(Sorted(rates)[rank - 1 - undefined])
  {
    SortedIs(rates);
  }

  lemma {:induction false} ReadsNearestRank(shares: seq<Option<real>>, allowed: int, rank: nat, r: Option<real>)
    requires InUnit(shares) && shares != [] && allowed == |shares| - rank && allowed < rank <= |shares|
    requires r == ReadAt(Rates(shares), Undefined(shares), allowed, rank)
    ensures r.Some? <==> Undefined(shares) <= allowed
    ensures r.Some? ==>
              IsNearestRank(Values(shares), rank, r.value) && 0.0 <= r.value <= 1.0 && r.value in Rates(shares)
  {
    ZerosAreLowest(shares, 0.0);
    if Undefined(shares) <= allowed {
      ReadsUnclamped(Rates(shares), Undefined(shares), allowed, rank);
      ElementIsNearestRank(shares, rank, r.value);
    }
  }

  /**
   For a quantile over a half, the bound is the nearest-rank element of all the replicates'
   rates, those without a verdict counting as zero: no index is clamped, and there is a bound
   unless too many replicates are without a verdict.
   */
  lemma {:induction false} BoundIsNearestRank(ts: seq<BlockTally>, quantile: real)
    requires 0.5 < quantile <= 1.0 && ts != []
    ensures var shares := Shares(ts);
            var r := Read(Rates(shares), Undefined(shares), quantile, |ts|);
            && (r.Some? <==> Undefined(shares) <= AllowedUndefined(quantile, |ts|))
            && (r.Some? ==> IsNearestRank(Values(shares), Rank(quantile, |ts|), r.value))
            && (r.Some? ==> 0.0 <= r.value <= 1.0 && r.value in Rates(shares))
  {
    var shares := Shares(ts);
    SharesAreInUnit(ts);
    RankBeyondUndefined(quantile, |ts|);
    ReadsNearestRank(shares, AllowedUndefined(quantile, |ts|), Rank(quantile, |ts|),
                     Read(Rates(shares), Undefined(shares), quantile, |ts|));
  }

  /** No index is ever clamped, over all numbers of replicates, exactly for quantiles over a half. */
  lemma {:induction false} NeverClampsIff(quantile: real)
    requires 0.0 <= quantile <= 1.0
    ensures (forall n: nat | n > 0 :: AllowedUndefined(quantile, n) < Rank(quantile, n)) <==> quantile > 0.5
  {
    if quantile > 0.5 {
      forall n: nat | n > 0 ensures AllowedUndefined(quantile, n) < Rank(quantile, n) {
        RankBeyondUndefined(quantile, n);
      }
    } else {
      assert AllowedUndefined(quantile, 2) >= 1 && Rank(quantile, 2) <= 1;
    }
  }

  // ----- Two cases with a known bound -----

  function Pooled(windows: seq<seq<BlockTally>>): BlockTally {
    if windows == [] then BlockTally(0, 0) else
    var last := windows[|windows| - 1];
    Add(Pooled(windows[..|windows| - 1]), BlockTally(Confirmed(last), Refutations(last)))
  }

  lemma {:induction false} RunTallyIsTotal(window: seq<BlockTally>, take: nat)
    requires take <= |window|
    ensures RunTally(window, 0, take) == BlockTally(Confirmed(window[..take]), Refutations(window[..take]))
    decreases take
  {
    if take > 0 {
      RunTallyIsTotal(window, take - 1);
      assert window[..take] == window[..take - 1] + [window[take - 1]];
      TalliesAppend(window[..take - 1], [window[take - 1]]);
    }
  }

  /** A window no longer than a run is resampled whole. */
  lemma {:induction false} ShortWindowIsWhole(window: seq<BlockTally>, blockLen: nat, g: Generator, s: Word)
    requires window != [] && |window| <= blockLen
    ensures WindowTally(window, blockLen, g, s) == BlockTally(Confirmed(window), Refutations(window))
  {
    var n := |window|;
    RunTallyIsTotal(window, n);
    assert window[..n] == window;
    assert RunsTally(window, n, g, g.next(s), n) == BlockTally(0, 0);
    assert RunsTally(window, n, g, s, 0) == Add(RunTally(window, 0, n), BlockTally(0, 0));
  }

  lemma {:induction false} ShortWindowsArePooled(windows: seq<seq<BlockTally>>, blockLen: nat, g: Generator, s: Word,
                                                 k: nat)
    requires NoneEmpty(windows) && k <= |windows| && forall i | 0 <= i < |windows| :: |windows[i]| <= blockLen
    ensures ReplicateTally(windows, blockLen, g, s, k) == Pooled(windows[..k])
    decreases k
  {
    if k > 0 {
      ShortWindowsArePooled(windows, blockLen, g, s, k - 1);
      ShortWindowIsWhole(windows[k - 1], blockLen, g, StateAt(windows, blockLen, g, s, k - 1));
      assert windows[..k][..k - 1] == windows[..k - 1];
    }
  }

  ghost predicate AllSay(shares: seq<Option<real>>, share: Option<real>) {
    forall i | 0 <= i < |shares| :: shares[i] == share
  }

  /** When runs are as long as the windows, every replicate is the whole evidence. */
  lemma {:induction false} LongRunsPool(windows: seq<seq<BlockTally>>, blockLen: nat, g: Generator, seed: Word, n: nat)
    requires NoneEmpty(windows) && forall i | 0 <= i < |windows| :: |windows[i]| <= blockLen
    ensures |Replicates(windows, blockLen, g, seed, n)| == n
    ensures forall i | 0 <= i < n :: Replicates(windows, blockLen, g, seed, n)[i] == Pooled(windows)
    decreases n
  {
    if n > 0 {
      LongRunsPool(windows, blockLen, g, seed, n - 1);
      ShortWindowsArePooled(windows, blockLen, g, Before(windows, blockLen, g, seed, n - 1), |windows|);
      assert windows[..|windows|] == windows;
    }
  }

  lemma {:induction false} OneRateOnly(shares: seq<Option<real>>, rate: real)
    requires AllSay(shares, Some(rate))
    ensures Undefined(shares) == 0 && forall q <- Rates(shares) :: q == rate
    decreases |shares|
  {
    if shares != [] { OneRateOnly(shares[..|shares| - 1], rate); }
  }

  lemma {:induction false} NoRateAtAll(shares: seq<Option<real>>)
    requires AllSay(shares, None)
    ensures Undefined(shares) == |shares| && Rates(shares) == []
    decreases |shares|
  {
    if shares != [] { NoRateAtAll(shares[..|shares| - 1]); }
  }

  lemma {:induction false} SameTallySameShare(ts: seq<BlockTally>, t: BlockTally)
    requires forall i | 0 <= i < |ts| :: ts[i] == t
    ensures AllSay(Shares(ts), Rate(t))
  {}

  /** Then the bound is the pooled rate itself, or nothing when there is no verdict. */
  lemma {:induction false} LongRunsBoundAtPooledRate(windows: seq<seq<BlockTally>>, blockLen: nat, g: Generator,
                                                     seed: Word, replicates: nat, quantile: real)
    requires NoneEmpty(windows) && forall i | 0 <= i < |windows| :: |windows[i]| <= blockLen
    requires 0.5 < quantile <= 1.0 && replicates > 0
    ensures var shares := Shares(Replicates(windows, blockLen, g, seed, replicates));
            Read(Rates(shares), Undefined(shares), quantile, replicates) == Rate(Pooled(windows))
  {
    var ts := Replicates(windows, blockLen, g, seed, replicates);
    LongRunsPool(windows, blockLen, g, seed, replicates);
    SameTallySameShare(ts, Pooled(windows));
    BoundIsNearestRank(ts, quantile);
    RankBeyondUndefined(quantile, replicates);
    match Rate(Pooled(windows))
    case Some(rate) => OneRateOnly(Shares(ts), rate);
    case None => NoRateAtAll(Shares(ts));
  }

  ghost predicate Clean(window: seq<BlockTally>) {
    forall i | 0 <= i < |window| :: window[i].refuted == 0
  }

  lemma {:induction false} CleanRun(window: seq<BlockTally>, start: nat, take: nat)
    requires Clean(window) && start + take <= |window|
    ensures RunTally(window, start, take).refuted == 0
    decreases take
  {
    if take > 0 { CleanRun(window, start, take - 1); }
  }

  lemma {:induction false} CleanRuns(window: seq<BlockTally>, len: nat, g: Generator, s: Word, filled: nat)
    requires Clean(window) && 1 <= len <= |window| && filled <= |window|
    ensures RunsTally(window, len, g, s, filled).refuted == 0
    decreases |window| - filled
  {
    if filled < |window| {
      var take := Min(len, |window| - filled);
      CleanRun(window, Scale(g.mix(g.next(s)), |window| - len + 1), take);
      CleanRuns(window, len, g, g.next(s), filled + take);
    }
  }

  lemma {:induction false} CleanReplicate(windows: seq<seq<BlockTally>>, blockLen: nat, g: Generator, s: Word, k: nat)
    requires NoneEmpty(windows) && k <= |windows| && forall i | 0 <= i < |windows| :: Clean(windows[i])
    ensures ReplicateTally(windows, blockLen, g, s, k).refuted == 0
    decreases k
  {
    if k > 0 {
      CleanReplicate(windows, blockLen, g, s, k - 1);
      var n := |windows[k - 1]|;
      CleanRuns(windows[k - 1], RunLength(blockLen, n), g, StateAt(windows, blockLen, g, s, k - 1), 0);
    }
  }

  lemma {:induction false} CleanRates(windows: seq<seq<BlockTally>>, blockLen: nat, g: Generator, seed: Word, n: nat)
    requires NoneEmpty(windows) && forall i | 0 <= i < |windows| :: Clean(windows[i])
    ensures |Replicates(windows, blockLen, g, seed, n)| == n
    ensures forall q <- Rates(Shares(Replicates(windows, blockLen, g, seed, n))) :: q == 0.0
    decreases n
  {
    if n > 0 {
      var before := Replicates(windows, blockLen, g, seed, n - 1);
      CleanRates(windows, blockLen, g, seed, n - 1);
      CleanReplicate(windows, blockLen, g, Before(windows, blockLen, g, seed, n - 1), |windows|);
      var last := Replicate(windows, blockLen, g, seed, n - 1);
      OneMoreShare(before, last);
      CleanShare(last);
    }
  }

  lemma {:induction false} CleanShare(t: BlockTally)
    requires t.refuted == 0
    ensures Rate(t).Some? ==> Rate(t).value == 0.0
  {}

  /** Evidence without a refutation is never bounded above zero. */
  lemma {:induction false} CleanEvidenceBoundsAtZero(windows: seq<seq<BlockTally>>, blockLen: nat, g: Generator,
                                                     seed: Word, replicates: nat, quantile: real)
    requires NoneEmpty(windows) && forall i | 0 <= i < |windows| :: Clean(windows[i])
    requires 0.5 < quantile <= 1.0 && replicates > 0
    ensures var shares := Shares(Replicates(windows, blockLen, g, seed, replicates));
            var r := Read(Rates(shares), Undefined(shares), quantile, replicates);
            r.Some? ==> r.value == 0.0
  {
    CleanRates(windows, blockLen, g, seed, replicates);
    BoundIsNearestRank(Replicates(windows, blockLen, g, seed, replicates), quantile);
  }

  lemma {:induction false} PooledSnoc(windows: seq<seq<BlockTally>>, last: seq<BlockTally>)
    ensures Pooled(windows + [last]) == Add(Pooled(windows), BlockTally(Confirmed(last), Refutations(last)))
  {
    assert (windows + [last])[..|windows|] == windows;
  }

  lemma {:induction false} PooledEmpty(windows: seq<seq<BlockTally>>, none: seq<BlockTally>)
    requires none == []
    ensures Pooled(windows + [none]) == Pooled(windows)
  {
    PooledSnoc(windows, none);
    assert Confirmed(none) == 0 && Refutations(none) == 0;
    AddZero(Pooled(windows));
  }

  lemma {:induction false} AddZero(t: BlockTally)
    ensures Add(t, BlockTally(0, 0)) == t
  {}

  lemma {:induction false} NonEmptySnoc(windows: seq<seq<BlockTally>>, last: seq<BlockTally>)
    ensures NonEmpty(windows + [last]) == if last == [] then NonEmpty(windows) else NonEmpty(windows) + [last]
  {
    assert (windows + [last])[..|windows|] == windows;
  }

  /** Leaving out empty windows leaves out no verdict. */
  lemma {:induction false} EmptyWindowsAddNothing(windows: seq<seq<BlockTally>>)
    ensures Pooled(NonEmpty(windows)) == Pooled(windows)
    decreases |windows|
  {
    if windows != [] {
      EmptyWindowsAddNothing(windows[..|windows| - 1]);
      OneMoreWindow(windows[..|windows| - 1], windows[|windows| - 1]);
      assert windows == windows[..|windows| - 1] + [windows[|windows| - 1]];
    }
  }

  lemma {:induction false} OneMoreWindow(front: seq<seq<BlockTally>>, last: seq<BlockTally>)
    requires Pooled(NonEmpty(front)) == Pooled(front)
    ensures Pooled(NonEmpty(front + [last])) == Pooled(front + [last])
  {
    NonEmptySnoc(front, last);
    if last == [] {
      PooledEmpty(front, last);
    } else {
      PooledSnoc(front, last);
      PooledSnoc(NonEmpty(front), last);
    }
  }
}
