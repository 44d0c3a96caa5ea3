/**
 The false-positive claim: verdicts of the mainnet-replay fixtures rolled up by detector
 and pooled, and the evidence they give for or against the target.
 */
module Claim {
  import opened Common
  import opened Scoring
  import opened Wilson
  import B = Bootstrap

  // ----- Per-detector counts -----

  datatype Column = TruePositive | FalseNegative | FalsePositive | Unadjudicated

  datatype DetectorStats = DetectorStats(truePositives: nat, falseNegatives: nat, falsePositives: nat, unadjudicated: nat) {
    function Bump(c: Column): DetectorStats {
      match c
      case TruePositive => this.(truePositives := truePositives + 1)
      case FalseNegative => this.(falseNegatives := falseNegatives + 1)
      case FalsePositive => this.(falsePositives := falsePositives + 1)
      case Unadjudicated => this.(unadjudicated := unadjudicated + 1)
    }

    /** Alerts that carry a verdict. */
    function Adjudicated(): nat {
      truePositives + falsePositives
    }
  }

  const ZERO := DetectorStats(0, 0, 0, 0)

  /** The detectors named by each kind of verdict, as often as they are named. */
  datatype Ledger = Ledger(tp: multiset<string>, fneg: multiset<string>, fp: multiset<string>, un: multiset<string>) {
    ghost function Stats(d: string): DetectorStats {
      DetectorStats(tp[d], fneg[d], fp[d], un[d])
    }

    ghost function Totals(): DetectorStats {
      DetectorStats(|tp|, |fneg|, |fp|, |un|)
    }

    ghost function Plus(c: Column, names: multiset<string>): Ledger {
      match c
      case TruePositive => this.(tp := tp + names)
      case FalseNegative => this.(fneg := fneg + names)
      case FalsePositive => this.(fp := fp + names)
      case Unadjudicated => this.(un := un + names)
    }
  }

  ghost function LabelDetectors(labels: seq<Incident>): multiset<string> {
    if labels == [] then multiset{} else LabelDetectors(labels[..|labels| - 1]) + multiset{labels[|labels| - 1].detector}
  }

  ghost function AlertDetectors(findings: seq<Finding>): multiset<string> {
    if findings == [] then multiset{}
    else AlertDetectors(findings[..|findings| - 1]) + multiset{findings[|findings| - 1].detector}
  }

  ghost function LedgerOf(results: seq<FixtureResult>): Ledger {
    if results == [] then Ledger(multiset{}, multiset{}, multiset{}, multiset{}) else
    Entered(LedgerOf(results[..|results| - 1]), results[|results| - 1])
  }

  ghost function Entered(before: Ledger, r: FixtureResult): Ledger {
    before.Plus(TruePositive, LabelDetectors(r.caught)).Plus(FalseNegative, LabelDetectors(r.missed))
          .Plus(FalsePositive, AlertDetectors(r.unexpected)).Plus(Unadjudicated, AlertDetectors(r.unadjudicated))
  }

  /** A map that holds a ledger's counts, an absent detector counting nothing. */
  ghost predicate Counts(stats: map<string, DetectorStats>, ledger: Ledger) {
    && (forall d <- stats :: stats[d] == ledger.Stats(d))
    && (forall d | d !in stats :: ledger.Stats(d) == ZERO)
  }

  function Entry(stats: map<string, DetectorStats>, id: string): DetectorStats {
    if id in stats then stats[id] else ZERO
  }

  lemma {:induction false} BumpCounts(stats: map<string, DetectorStats>, ledger: Ledger, c: Column, id: string)
    requires Counts(stats, ledger)
    ensures Counts(stats[id := Entry(stats, id).Bump(c)], ledger.Plus(c, multiset{id}))
  {
    var more := ledger.Plus(c, multiset{id});
    forall d ensures more.Stats(d) == if d == id then ledger.Stats(d).Bump(c) else ledger.Stats(d) {}
  }

  method CountLabels(stats: map<string, DetectorStats>, c: Column, labels: seq<Incident>, ghost ledger: Ledger)
    returns (r: map<string, DetectorStats>)
    requires Counts(stats, ledger)
    ensures Counts(r, ledger.Plus(c, LabelDetectors(labels)))
  {
    r := stats;
    PlusNothing(ledger, c);
    for i := 0 to |labels|
      invariant Counts(r, ledger.Plus(c, LabelDetectors(labels[..i])))
    {
      BumpCounts(r, ledger.Plus(c, LabelDetectors(labels[..i])), c, labels[i].detector);
      PlusPlus(ledger, c, LabelDetectors(labels[..i]), multiset{labels[i].detector});
      assert labels[..i + 1][..i] == labels[..i];
      r := r[labels[i].detector := Entry(r, labels[i].detector).Bump(c)];
    }
    assert labels[..|labels|] == labels;
  }

  method CountAlerts(stats: map<string, DetectorStats>, c: Column, findings: seq<Finding>, ghost ledger: Ledger)
    returns (r: map<string, DetectorStats>)
    requires Counts(stats, ledger)
    ensures Counts(r, ledger.Plus(c, AlertDetectors(findings)))
  {
    r := stats;
    PlusNothing(ledger, c);
    for i := 0 to |findings|
      invariant Counts(r, ledger.Plus(c, AlertDetectors(findings[..i])))
    {
      BumpCounts(r, ledger.Plus(c, AlertDetectors(findings[..i])), c, findings[i].detector);
      PlusPlus(ledger, c, AlertDetectors(findings[..i]), multiset{findings[i].detector});
      assert findings[..i + 1][..i] == findings[..i];
      r := r[findings[i].detector := Entry(r, findings[i].detector).Bump(c)];
    }
    assert findings[..|findings|] == findings;
  }

  lemma {:induction false} PlusNothing(ledger: Ledger, c: Column)
    ensures ledger.Plus(c, multiset{}) == ledger
  {}

  lemma {:induction false} PlusPlus(ledger: Ledger, c: Column, a: multiset<string>, b: multiset<string>)
    ensures ledger.Plus(c, a).Plus(c, b) == ledger.Plus(c, a + b)
  {}

  method AggregateOne(stats: map<string, DetectorStats>, r: FixtureResult, ghost before: Ledger)
    returns (more: map<string, DetectorStats>)
    requires Counts(stats, before)
    ensures Counts(more, Entered(before, r))
  {
    ghost var l1 := before.Plus(TruePositive, LabelDetectors(r.caught));
    ghost var l2 := l1.Plus(FalseNegative, LabelDetectors(r.missed));
    ghost var l3 := l2.Plus(FalsePositive, AlertDetectors(r.unexpected));
    more := CountLabels(stats, TruePositive, r.caught, before);
    more := CountLabels(more, FalseNegative, r.missed, l1);
    more := CountAlerts(more, FalsePositive, r.unexpected, l2);
    more := CountAlerts(more, Unadjudicated, r.unadjudicated, l3);
  }

  /** Roll per-fixture outcomes up by detector. */
  method Aggregate(results: seq<FixtureResult>) returns (stats: map<string, DetectorStats>)
    ensures Counts(stats, LedgerOf(results))
  {
    stats := map[];
    ghost var ledger := LedgerOf([]);
    for i := 0 to |results|
      invariant ledger == LedgerOf(results[..i]) && Counts(stats, ledger)
    {
      assert results[..i + 1][..i] == results[..i];
      stats := AggregateOne(stats, results[i], ledger);
      ledger := Entered(ledger, results[i]);
    }
    assert results[..|results|] == results;
  }

  // ----- Pooling -----

  function AddStats(a: DetectorStats, b: DetectorStats): DetectorStats {
    DetectorStats(a.truePositives + b.truePositives, a.falseNegatives + b.falseNegatives,
                  a.falsePositives + b.falsePositives, a.unadjudicated + b.unadjudicated)
  }

  /** A ledger without one detector. */
  ghost function Strike(l: Ledger, d: string): Ledger {
    Ledger(l.tp[d := 0], l.fneg[d := 0], l.fp[d := 0], l.un[d := 0])
  }

  lemma {:induction false} StrikeCounts(l: Ledger, d: string)
    ensures l.Totals() == AddStats(l.Stats(d), Strike(l, d).Totals())
    ensures forall e: string :: Strike(l, d).Stats(e) == if e == d then ZERO else l.Stats(e)
  {}

  lemma {:induction false} NobodyLeft(l: Ledger)
    requires forall d: string :: l.Stats(d) == ZERO
    ensures l.Totals() == ZERO
  {
    forall d: string ensures l.tp[d] == 0 && l.fneg[d] == 0 && l.fp[d] == 0 && l.un[d] == 0 {
      assert l.Stats(d) == ZERO;
    }
    assert l.tp == multiset{} && l.fneg == multiset{} && l.fp == multiset{} && l.un == multiset{};
  }

  /** A ledger of just some of the detectors. */
  ghost predicate Only(perDetector: map<string, DetectorStats>, names: set<string>, left: Ledger)
    requires names <= perDetector.Keys
  {
    forall d: string :: left.Stats(d) == if d in names then perDetector[d] else ZERO
  }

  lemma {:induction false} OneFewer(perDetector: map<string, DetectorStats>, names: set<string>, left: Ledger,
                                    d: string)
    requires d in names && names <= perDetector.Keys && Only(perDetector, names, left)
    ensures Only(perDetector, names - {d}, Strike(left, d))
    ensures left.Totals() == AddStats(perDetector[d], Strike(left, d).Totals())
  {
    StrikeCounts(left, d);
    assert left.Stats(d) == perDetector[d];
    forall e: string ensures Strike(left, d).Stats(e) == if e in names - {d} then perDetector[e] else ZERO {
      assert left.Stats(e) == if e in names then perDetector[e] else ZERO;
    }
  }

  lemma {:induction false} AddAssociates(a: DetectorStats, b: DetectorStats, c: DetectorStats)
    ensures AddStats(AddStats(a, b), c) == AddStats(a, AddStats(b, c))
  {}

  /** What the detectors still to come add up to. */
  ghost predicate StillToCome(perDetector: map<string, DetectorStats>, names: set<string>, totals: DetectorStats)
    requires names <= perDetector.Keys
  {
    exists left :: Only(perDetector, names, left) && left.Totals() == totals
  }

  lemma {:induction false} AllToCome(perDetector: map<string, DetectorStats>, ledger: Ledger)
    requires Counts(perDetector, ledger)
    ensures StillToCome(perDetector, perDetector.Keys, ledger.Totals())
  {
    assert Only(perDetector, perDetector.Keys, ledger);
  }

  lemma {:induction false} NextToCome(perDetector: map<string, DetectorStats>, names: set<string>,
                                      totals: DetectorStats, d: string)
    returns (rest: DetectorStats)
    requires names <= perDetector.Keys && StillToCome(perDetector, names, totals) && d in names
    ensures StillToCome(perDetector, names - {d}, rest) && totals == AddStats(perDetector[d], rest)
  {
    var left :| Only(perDetector, names, left) && left.Totals() == totals;
    OneFewer(perDetector, names, left, d);
    rest := Strike(left, d).Totals();
  }

  lemma {:induction false} NoneToCome(perDetector: map<string, DetectorStats>, totals: DetectorStats)
    requires StillToCome(perDetector, {}, totals)
    ensures totals == ZERO
  {
    var left :| Only(perDetector, {}, left) && left.Totals() == totals;
    NobodyLeft(left);
  }

  /** The counts of all detectors together, in whatever order they are gone through. */
  method Pool(perDetector: map<string, DetectorStats>, ghost ledger: Ledger) returns (pooled: DetectorStats)
    requires Counts(perDetector, ledger)
    ensures pooled == ledger.Totals()
  {
    pooled := ZERO;
    var remaining := perDetector.Keys;
    ghost var toCome := ledger.Totals();
    AllToCome(perDetector, ledger);
    while remaining != {}
      invariant remaining <= perDetector.Keys && StillToCome(perDetector, remaining, toCome)
      invariant ledger.Totals() == AddStats(pooled, toCome)
      decreases |remaining|
    {
      var d :| d in remaining;
      ghost var rest := NextToCome(perDetector, remaining, toCome, d);
      AddAssociates(pooled, perDetector[d], rest);
      pooled := AddStats(pooled, perDetector[d]);
      remaining, toCome := remaining - {d}, rest;
    }
    NoneToCome(perDetector, toCome);
  }

  // ----- The verdict -----

  datatype BlockBootstrap = BlockBootstrap(blockLen: nat, replicates: nat, seed: Word)

  datatype Policy = Policy(target: real, level: OneSided, minWindows: nat, bootstrap: Option<BlockBootstrap>) {
    function Quantile(): real {
      level.Percent() as real / 100.0
    }
  }

  /** The mainnet replays of a report; the authored fixtures are only counted. */
  function Replays(results: seq<FixtureResult>): seq<FixtureResult> {
    if results == [] then [] else
    var last := results[|results| - 1];
    Replays(results[..|results| - 1]) + if last.provenance == MainnetReplay then [last] else []
  }

  function Tallies(replays: seq<FixtureResult>): (ws: seq<seq<BlockTally>>)
    ensures |ws| == |replays|
  {
    if replays == [] then [] else Tallies(replays[..|replays| - 1]) + [replays[|replays| - 1].tallies]
  }

  predicate ContradictedBy(sqrt: real -> real, policy: Policy, stats: DetectorStats) {
    LowerOver(sqrt, policy.level, policy.target, stats.falsePositives, stats.Adjudicated())
  }

  datatype Verdict = Supported
                   | Insufficient(moreCleanAlerts: Needed, moreWindows: nat, clusteredBoundClears: bool)
                   | Contradicted(detectors: set<string>)

  /** The clustered bound of some replays, when the policy has one and the evidence supports it. */
  ghost function ClusteredUpper(policy: Policy, replays: seq<FixtureResult>): Option<real> {
    match policy.bootstrap
    case None => None
    case Some(b) =>
      var ws := B.NonEmpty(Tallies(replays));
      if ws == [] || b.replicates == 0 then None else
      var shares := B.Shares(B.Replicates(ws, b.blockLen, B.SplitMix64(), b.seed, b.replicates));
      B.Read(B.Rates(shares), B.Undefined(shares), policy.Quantile(), b.replicates)
  }

  ghost predicate ClusteredClears(policy: Policy, replays: seq<FixtureResult>) {
    policy.bootstrap.Some? ==>
      ClusteredUpper(policy, replays).Some? && ClusteredUpper(policy, replays).value < policy.target
  }

  /** The detectors refuted beyond the target. */
  ghost function Blamed(sqrt: real -> real, policy: Policy, ledger: Ledger): set<string> {
    set d | d in ledger.tp + ledger.fp && ContradictedBy(sqrt, policy, ledger.Stats(d))
  }

  /** Some detector, or all of them together, is refuted beyond the target. */
  ghost predicate IsContradicted(sqrt: real -> real, policy: Policy, ledger: Ledger) {
    Blamed(sqrt, policy, ledger) != {} || ContradictedBy(sqrt, policy, ledger.Totals())
  }

  /** The pooled evidence, enough windows of it, and the clustered bound all clear the target. */
  ghost predicate Clears(sqrt: real -> real, policy: Policy, replays: seq<FixtureResult>) {
    var totals := LedgerOf(replays).Totals();
    && UpperUnder(sqrt, policy.level, policy.target, totals.falsePositives, totals.Adjudicated())
    && policy.minWindows <= |replays|
    && ClusteredClears(policy, replays)
  }

  method ClusteredBound(policy: Policy, replays: seq<FixtureResult>) returns (upper: Option<real>)
    ensures upper == ClusteredUpper(policy, replays)
  {
    match policy.bootstrap
    case None => upper := None;
    case Some(b) =>
      upper := B.UpperBound(B.SplitMix64(), Tallies(replays), b.blockLen, b.replicates, b.seed, policy.Quantile());
  }

  lemma {:induction false} BlamedAreCounted(sqrt: real -> real, policy: Policy, perDetector: map<string, DetectorStats>,
                                            ledger: Ledger)
    requires Counts(perDetector, ledger)
    ensures (set d | d in perDetector && ContradictedBy(sqrt, policy, perDetector[d])) == Blamed(sqrt, policy, ledger)
  {
    forall d: string ensures d in perDetector && ContradictedBy(sqrt, policy, perDetector[d]) <==> d in Blamed(sqrt, policy, ledger) {
      BlamedIff(sqrt, policy, perDetector, ledger, d);
    }
  }

  lemma {:induction false} BlamedIff(sqrt: real -> real, policy: Policy, perDetector: map<string, DetectorStats>,
                                     ledger: Ledger, d: string)
    requires Counts(perDetector, ledger)
    ensures d in perDetector && ContradictedBy(sqrt, policy, perDetector[d]) <==> d in Blamed(sqrt, policy, ledger)
  {
    NoVerdictNoBlame(sqrt, policy, ledger.Stats(d));
    assert d !in perDetector ==> ledger.Stats(d) == ZERO;
  }

  lemma {:induction false} NoVerdictNoBlame(sqrt: real -> real, policy: Policy, stats: DetectorStats)
    ensures stats.Adjudicated() == 0 ==> !ContradictedBy(sqrt, policy, stats)
  {}

  /** Evaluate the claim over the mainnet-replay part of a report. */
  method Evaluate(sqrt: real -> real, results: seq<FixtureResult>, policy: Policy)
    returns (pooled: DetectorStats, verdict: Verdict)
    requires IsSqrt(sqrt) && 0.0 < policy.target < 1.0
    requires LedgerOf(Replays(results)).Totals().Adjudicated() <= U64_MAX
    ensures pooled == LedgerOf(Replays(results)).Totals()
    ensures IsVerdict(sqrt, policy, Replays(results), verdict)
  {
    var replays := Replays(results);
    ghost var ledger := LedgerOf(replays);
    var perDetector := Aggregate(replays);
    pooled := Pool(perDetector, ledger);
    var upper := ClusteredBound(policy, replays);
    var clears := policy.bootstrap.None? || (upper.Some? && upper.value < policy.target);

    var contradicting := set d | d in perDetector && ContradictedBy(sqrt, policy, perDetector[d]);
    BlamedAreCounted(sqrt, policy, perDetector, ledger);
    if contradicting == {} && ContradictedBy(sqrt, policy, pooled) {
      contradicting := {"(pooled)"};
    }
    if contradicting != {} {
      return pooled, Contradicted(contradicting);
    }
    var more := CleanAlertsNeeded(sqrt, policy.level, policy.target, pooled.falsePositives, pooled.Adjudicated());
    var moreWindows := if |replays| < policy.minWindows then policy.minWindows - |replays| else 0;
    if more == Extra(0) && moreWindows == 0 && clears {
      verdict := Supported;
    } else {
      verdict := Insufficient(more, moreWindows, clears);
    }
  }

  /** A verdict that is what the evidence says. */
  ghost predicate IsVerdict(sqrt: real -> real, policy: Policy, replays: seq<FixtureResult>, v: Verdict) {
    var ledger := LedgerOf(replays);
    var totals, blamed := ledger.Totals(), Blamed(sqrt, policy, ledger);
    && (v.Contradicted? <==> IsContradicted(sqrt, policy, ledger))
    && (v.Contradicted? ==> v.detectors == if blamed == {} then {"(pooled)"} else blamed)
    && (v.Supported? <==> !IsContradicted(sqrt, policy, ledger) && Clears(sqrt, policy, replays))
    && (v.Insufficient? ==>
          && (v.moreCleanAlerts.Extra? ==>
                IsThreshold(sqrt, policy.level, policy.target, totals.falsePositives, totals.Adjudicated(), v.moreCleanAlerts.count))
          && v.moreWindows == (if |replays| < policy.minWindows then policy.minWindows - |replays| else 0)
          && (v.clusteredBoundClears <==> ClusteredClears(policy, replays)))
  }

  // ----- What the verdict rests on -----

  lemma {:induction false} ReplaysOfConcat(a: seq<FixtureResult>, b: seq<FixtureResult>)
    ensures Replays(a + b) == Replays(a) + Replays(b)
    decreases |b|
  {
    if b == [] {
      assert a + b == a;
    } else {
      assert (a + b)[..|a + b| - 1] == a + b[..|b| - 1];
      ReplaysOfConcat(a, b[..|b| - 1]);
    }
  }

  lemma {:induction false} NoReplaysAmongAuthored(authored: seq<FixtureResult>)
    requires forall i | 0 <= i < |authored| :: authored[i].provenance != MainnetReplay
    ensures Replays(authored) == []
    decreases |authored|
  {
    if authored != [] { NoReplaysAmongAuthored(authored[..|authored| - 1]); }
  }

  /** Any number of author-written fixtures, anywhere in the report, leave the evidence as it is. */
  lemma {:induction false} AuthoredChangeNothing(before: seq<FixtureResult>, authored: seq<FixtureResult>,
                                                 after: seq<FixtureResult>)
    requires forall i | 0 <= i < |authored| :: authored[i].provenance != MainnetReplay
    ensures Replays(before + authored + after) == Replays(before + after)
  {
    ReplaysOfConcat(before + authored, after);
    ReplaysOfConcat(before, authored);
    ReplaysOfConcat(before, after);
    NoReplaysAmongAuthored(authored);
  }

  lemma {:induction false} DetectorCounts(labels: seq<Incident>, findings: seq<Finding>)
    ensures |LabelDetectors(labels)| == |labels| && |AlertDetectors(findings)| == |findings|
    decreases |labels| + |findings|
  {
    if labels != [] {
      DetectorCounts(labels[..|labels| - 1], []);
    }
    if findings != [] {
      DetectorCounts([], findings[..|findings| - 1]);
    }
  }

  lemma {:induction false} EnteredTotals(before: Ledger, r: FixtureResult)
    ensures Entered(before, r).Totals().truePositives == before.Totals().truePositives + |r.caught|
    ensures Entered(before, r).Totals().falsePositives == before.Totals().falsePositives + |r.unexpected|
  {
    DetectorCounts(r.caught, r.unexpected);
  }

  /** Per-block tallies that sum to a fixture's verdicts. */
  ghost predicate Tallied(r: FixtureResult) {
    Confirmed(r.tallies) == |r.caught| && Refutations(r.tallies) == |r.unexpected|
  }

  /** The results of running these fixtures. */
  ghost predicate AreRuns(fixtures: seq<Fixture>, results: seq<FixtureResult>) {
    |results| == |fixtures| && forall i | 0 <= i < |fixtures| :: IsRun(fixtures[i], results[i])
  }

  lemma {:induction false} RunsAreTallied(fixtures: seq<Fixture>, results: seq<FixtureResult>)
    requires AreRuns(fixtures, results)
    ensures forall r <- results :: Tallied(r)
  {
    forall r | r in results ensures Tallied(r) {
      var i :| 0 <= i < |results| && results[i] == r;
      var f := fixtures[i];
      TalliesSumToVerdicts(f.blocks, Findings(f.blocks, f.events), f.truth, r);
    }
  }

  lemma {:induction false} ReplaysAreResults(results: seq<FixtureResult>)
    ensures forall r <- Replays(results) :: r in results
    decreases |results|
  {
    if results != [] { ReplaysAreResults(results[..|results| - 1]); }
  }

  /** Over any corpus, the pooled counts and the blocks the bootstrap resamples hold the same verdicts. */
  lemma {:induction false} BothBoundsRestOnTheSameTotals(fixtures: seq<Fixture>, results: seq<FixtureResult>)
    requires AreRuns(fixtures, results)
    ensures var replays := Replays(results);
            var totals, blocks := LedgerOf(replays).Totals(), B.Pooled(B.NonEmpty(Tallies(replays)));
            blocks.confirmed == totals.truePositives && blocks.refuted == totals.falsePositives
  {
    RunsAreTallied(fixtures, results);
    ReplaysAreResults(results);
    TalliesPool(Replays(results));
    B.EmptyWindowsAddNothing(Tallies(Replays(results)));
  }

  lemma {:induction false} TalliesPool(replays: seq<FixtureResult>)
    requires forall i | 0 <= i < |replays| :: Tallied(replays[i])
    ensures var totals, blocks := LedgerOf(replays).Totals(), B.Pooled(Tallies(replays));
            blocks.confirmed == totals.truePositives && blocks.refuted == totals.falsePositives
    decreases |replays|
  {
    if replays != [] {
      var front, r := replays[..|replays| - 1], replays[|replays| - 1];
      TalliesPool(front);
      EnteredTotals(LedgerOf(front), r);
      B.PooledSnoc(Tallies(front), r.tallies);
    }
  }

  /** The verdict in closed form: no square root, no interval, just counts against the target. */
  lemma {:induction false} SupportedIff(sqrt: real -> real, policy: Policy, replays: seq<FixtureResult>, v: Verdict)
    requires IsSqrt(sqrt) && 0.0 < policy.target < 1.0 && IsVerdict(sqrt, policy, replays, v)
    ensures var totals := LedgerOf(replays).Totals();
            var n, k := totals.Adjudicated(), totals.falsePositives;
            v.Supported? <==>
              && n > 0 && FarBelow(policy.level.Z2(), policy.target, k as real, n as real)
              && policy.minWindows <= |replays| && ClusteredClears(policy, replays)
              && Blamed(sqrt, policy, LedgerOf(replays)) == {}
  {
    var totals := LedgerOf(replays).Totals();
    UpperUnderIff(sqrt, policy.level, policy.target, totals.falsePositives, totals.Adjudicated());
    NeverBoth(sqrt, policy.level, policy.target, totals.falsePositives, totals.Adjudicated());
  }
}
