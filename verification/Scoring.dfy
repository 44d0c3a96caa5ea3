/**
 Scoring a replay against its labels: greedy one-to-one matching of raised alerts to
 confirmed and then refuted labels, and the per-block tallies the claim resamples.
 Running the detectors is not part of this model: what they emit per block is an input.
 */
module Scoring {
  import opened Common
  import opened Sequences
  import opened Matching

  datatype Incident = Incident(block: nat, detector: string, kind: nat, txs: Option<seq<nat>>)

  datatype Finding = Finding(block: nat, detector: string, kind: nat, txs: seq<nat>) {
    predicate Matches(i: Incident) {
      && block == i.block && detector == i.detector && kind == i.kind
      && (i.txs.Some? ==> SameSet(i.txs.value, txs))
    }
  }

  function TxSet(txs: seq<nat>): set<nat> {
    set t | t in txs
  }

  predicate SameSet(a: seq<nat>, b: seq<nat>) {
    TxSet(a) == TxSet(b)
  }

  // ----- Alerts out of a block's events -----

  datatype Event = Trigger(txs: seq<nat>) | Alert(detector: string, kind: nat) | Other

  /** The last trigger since the last alert, which that alert consumes. */
  function LastTrigger(events: seq<Event>): seq<nat> {
    if events == [] then [] else
    match events[|events| - 1]
    case Trigger(txs) => txs
    case Alert(_, _) => []
    case Other => LastTrigger(events[..|events| - 1])
  }

  /** One finding an alert, with the transactions of the trigger before it. */
  function FindingsIn(block: nat, events: seq<Event>): seq<Finding> {
    if events == [] then [] else
    var before := events[..|events| - 1];
    match events[|events| - 1]
    case Alert(detector, kind) => FindingsIn(block, before) + [Finding(block, detector, kind, LastTrigger(before))]
    case _ => FindingsIn(block, before)
  }

  method CollectFindings(block: nat, events: seq<Event>) returns (findings: seq<Finding>)
    ensures findings == FindingsIn(block, events)
  {
    findings := [];
    var lastTxs: seq<nat> := [];
    for i := 0 to |events|
      invariant findings == FindingsIn(block, events[..i]) && lastTxs == LastTrigger(events[..i])
    {
      assert events[..i + 1][..i] == events[..i];
      match events[i]
      case Trigger(txs) => lastTxs := txs;
      case Alert(detector, kind) =>
        findings, lastTxs := findings + [Finding(block, detector, kind, lastTxs)], [];
      case Other =>
    }
    assert events[..|events|] == events;
  }

  /** The findings of a whole replay, block after block. */
  function Findings(blocks: seq<nat>, events: seq<seq<Event>>): (fs: seq<Finding>)
    requires |blocks| == |events|
    ensures forall f <- fs :: f.block in blocks
  {
    if blocks == [] then [] else
    var n := |blocks| - 1;
    assert blocks == blocks[..n] + [blocks[n]];
    Findings(blocks[..n], events[..n]) + OnBlock(blocks[n], events[n])
  }

  function OnBlock(block: nat, events: seq<Event>): (fs: seq<Finding>)
    ensures forall f <- fs :: f.block == block
  {
    FindingsOnBlock(block, events);
    FindingsIn(block, events)
  }

  lemma {:induction false} FindingsOnBlock(block: nat, events: seq<Event>)
    ensures forall f <- FindingsIn(block, events) :: f.block == block
    decreases |events|
  {
    if events != [] { FindingsOnBlock(block, events[..|events| - 1]); }
  }

  method ReplayAll(blocks: seq<nat>, events: seq<seq<Event>>) returns (findings: seq<Finding>)
    requires |blocks| == |events|
    ensures findings == Findings(blocks, events)
  {
    findings := [];
    for i := 0 to |blocks|
      invariant findings == Findings(blocks[..i], events[..i])
    {
      assert blocks[..i + 1][..i] == blocks[..i] && events[..i + 1][..i] == events[..i];
      var more := CollectFindings(blocks[i], events[i]);
      findings := findings + more;
    }
    assert blocks[..|blocks|] == blocks && events[..|blocks|] == events;
  }

  // ----- Greedy one-to-one matching -----

  ghost function Fit(findings: seq<Finding>, labels: seq<Incident>): Fits {
    (i: nat, j: nat) => i < |labels| && j < |findings| && findings[j].Matches(labels[i])
  }

  /** The findings a matching leaves over, in order. */
  ghost function Leftover(findings: seq<Finding>, m: Assignment): (rest: seq<Finding>)
    ensures |rest| == |Unused(|findings|, m.Values)|
    ensures forall x | 0 <= x < |rest| :: LeftoverAt(findings, m, x) < |findings|
                                       && rest[x] == findings[LeftoverAt(findings, m, x)]
  {
    UnusedAre(|findings|, m.Values);
    var ids := Unused(|findings|, m.Values);
    seq(|ids|, x requires 0 <= x < |ids| => findings[ids[x]])
  }

  ghost function LeftoverAt(findings: seq<Finding>, m: Assignment, x: nat): nat
    requires x < |Unused(|findings|, m.Values)|
  {
    Unused(|findings|, m.Values)[x]
  }

  function FirstMatch(findings: seq<Finding>, incident: Incident): (at: Option<nat>)
    ensures at.Some? ==> at.value < |findings| && findings[at.value].Matches(incident)
  {
    if findings == [] then None
    else if findings[0].Matches(incident) then Some(0)
    else match FirstMatch(findings[1..], incident)
         case Some(x) => Some(x + 1)
         case None => None
  }

  lemma {:induction false} NoneMatchesBefore(findings: seq<Finding>, incident: Incident)
    ensures var at := FirstMatch(findings, incident);
            forall x | 0 <= x < (if at.Some? then at.value else |findings|) :: !findings[x].Matches(incident)
    decreases |findings|
  {
    if findings != [] && !findings[0].Matches(incident) {
      NoneMatchesBefore(findings[1..], incident);
      forall x | 0 < x < |findings| ensures findings[x] == findings[1..][x - 1] {}
    }
  }

  function RemoveAt(findings: seq<Finding>, at: Option<nat>): seq<Finding>
    requires at.Some? ==> at.value < |findings|
  {
    match at
    case Some(x) => findings[..x] + findings[x + 1..]
    case None => findings
  }

  /** Remove and return the first finding that matches a label. */
  method TakeMatch(findings: seq<Finding>, incident: Incident) returns (taken: Option<Finding>, rest: seq<Finding>)
    ensures var at := FirstMatch(findings, incident);
            rest == RemoveAt(findings, at) && taken == if at.Some? then Some(findings[at.value]) else None
  {
    for x := 0 to |findings|
      invariant FirstMatch(findings, incident)
             == match FirstMatch(findings[x..], incident) case Some(y) => Some(x + y) case None => None
    {
      assert findings[x..][1..] == findings[x + 1..];
      if findings[x].Matches(incident) {
        return Some(findings[x]), findings[..x] + findings[x + 1..];
      }
    }
    return None, findings;
  }

  /** What the first `n` labels leave, each having taken its first match. */
  ghost function Left(findings: seq<Finding>, labels: seq<Incident>, n: nat): seq<Finding>
    requires n <= |labels|
  {
    if n == 0 then findings else
    var before := Left(findings, labels, n - 1);
    RemoveAt(before, FirstMatch(before, labels[n - 1]))
  }

  /** What label `n` takes. */
  ghost function TakenBy(findings: seq<Finding>, labels: seq<Incident>, n: nat): Option<Finding>
    requires n < |labels|
  {
    var before := Left(findings, labels, n);
    match FirstMatch(before, labels[n])
    case Some(x) => Some(before[x])
    case None => None
  }

  /** A finding nobody took is left over. */
  lemma {:induction false} IsLeft(findings: seq<Finding>, m: Assignment, j: nat) returns (x: nat)
    requires j < |findings| && j !in m.Values
    ensures x < |Leftover(findings, m)| && LeftoverAt(findings, m, x) == j
    ensures Leftover(findings, m)[x] == findings[j] && findings[j] in Leftover(findings, m)
  {
    UnusedAre(|findings|, m.Values);
    assert j in Unused(|findings|, m.Values);
    x :| 0 <= x < |Unused(|findings|, m.Values)| && Unused(|findings|, m.Values)[x] == j;
    assert Leftover(findings, m)[x] == findings[j];
  }

  lemma {:induction false} LeftInOrder(findings: seq<Finding>, m: Assignment, y: nat, x: nat)
    requires y < |Leftover(findings, m)| && x < |Leftover(findings, m)|
    ensures LeftoverAt(findings, m, y) < LeftoverAt(findings, m, x) ==> y < x
  {
    UnusedAre(|findings|, m.Values);
    assert x < y ==> LeftoverAt(findings, m, x) < LeftoverAt(findings, m, y);
  }

  lemma {:induction false} EarlierAreTaken(findings: seq<Finding>, labels: seq<Incident>, m: Assignment, n: nat,
                                           x: nat, j: nat)
    requires n < |labels| && x < |Leftover(findings, m)|
    requires forall y | 0 <= y < x :: !Leftover(findings, m)[y].Matches(labels[n])
    requires j < LeftoverAt(findings, m, x) && Fit(findings, labels)(n, j)
    ensures j in m.Values
  {
    if j !in m.Values {
      var y := IsLeft(findings, m, j);
      LeftInOrder(findings, m, y, x);
    }
  }

  /** Taking the first match out of what is left is the greedy choice. */
  lemma {:induction false} TakeIsGreedy(findings: seq<Finding>, labels: seq<Incident>, m: Assignment, n: nat, x: nat)
    requires n < |labels| && IsGreedyUpTo(Fit(findings, labels), m, n)
    requires x < |Leftover(findings, m)| && Leftover(findings, m)[x].Matches(labels[n])
    requires forall y | 0 <= y < x :: !Leftover(findings, m)[y].Matches(labels[n])
    ensures IsGreedyUpTo(Fit(findings, labels), With(m, n, LeftoverAt(findings, m, x)), n + 1)
  {
    var j := LeftoverAt(findings, m, x);
    UnusedAre(|findings|, m.Values);
    forall other: nat | other < j && Fit(findings, labels)(n, other) ensures other in m.Values {
      EarlierAreTaken(findings, labels, m, n, x, other);
    }
    TakesNext(Fit(findings, labels), m, n, j);
  }

  lemma {:induction false} TakeLeaves(findings: seq<Finding>, m: Assignment, n: nat, x: nat)
    requires n !in m && x < |Leftover(findings, m)|
    ensures Leftover(findings, With(m, n, LeftoverAt(findings, m, x)))
         == Leftover(findings, m)[..x] + Leftover(findings, m)[x + 1..]
  {
    ValuesWith(m, n, LeftoverAt(findings, m, x));
    UseOne(|findings|, m.Values, x, LeftoverAt(findings, m, x));
  }

  lemma {:induction false} ValuesWith(m: Assignment, n: nat, j: nat)
    requires n !in m
    ensures With(m, n, j).Values == m.Values + {j}
  {
    var p := With(m, n, j);
    assert p[n] == j && forall k <- m :: k in p && p[k] == m[k];
  }

  lemma {:induction false} MissIsGreedy(findings: seq<Finding>, labels: seq<Incident>, m: Assignment, n: nat)
    requires n < |labels| && IsGreedyUpTo(Fit(findings, labels), m, n)
    requires forall f <- Leftover(findings, m) :: !f.Matches(labels[n])
    ensures IsGreedyUpTo(Fit(findings, labels), m, n + 1)
  {
    forall j: nat | Fit(findings, labels)(n, j) ensures j in m.Values {
      if j !in m.Values {
        var y := IsLeft(findings, m, j);
      }
    }
    MissesNext(Fit(findings, labels), m, n);
  }

  // ----- One fixture -----

  datatype Provenance = HandBuilt | Adversarial | MainnetReplay

  datatype Truth = Authored(adversarial: bool, incidents: seq<Incident>)
                 | Replay(confirmed: seq<Incident>, refuted: seq<Incident>, orphaned: nat)
  {
    function Source(): Provenance {
      match this
      case Authored(adversarial, _) => if adversarial then Adversarial else HandBuilt
      case Replay(_, _, _) => MainnetReplay
    }

    function Expected(): seq<Incident> {
      match this
      case Authored(_, incidents) => incidents
      case Replay(confirmed, _, _) => confirmed
    }

    function Refuted(): seq<Incident> {
      match this
      case Authored(_, _) => []
      case Replay(_, refuted, _) => refuted
    }

    function Orphaned(): nat {
      match this
      case Authored(_, _) => 0
      case Replay(_, _, orphaned) => orphaned
    }
  }

  datatype BlockTally = BlockTally(confirmed: nat, refuted: nat)

  datatype FixtureResult = FixtureResult(
    provenance: Provenance, caught: seq<Incident>, missed: seq<Incident>,
    unexpected: seq<Finding>, unadjudicated: seq<Finding>, refutationsCleared: nat,
    orphaned: nat, tallies: seq<BlockTally>)

  /** The labels, of the first `n`, that took an alert. */
  ghost function Caught(findings: seq<Finding>, labels: seq<Incident>, n: nat): seq<Incident>
    requires n <= |labels|
  {
    if n == 0 then [] else
    Caught(findings, labels, n - 1) + if TakenBy(findings, labels, n - 1).Some? then [labels[n - 1]] else []
  }

  ghost function Missed(findings: seq<Finding>, labels: seq<Incident>, n: nat): seq<Incident>
    requires n <= |labels|
  {
    if n == 0 then [] else
    Missed(findings, labels, n - 1) + if TakenBy(findings, labels, n - 1).Some? then [] else [labels[n - 1]]
  }

  /** The alerts those labels took, in the order of the labels. */
  ghost function Taken(findings: seq<Finding>, labels: seq<Incident>, n: nat): seq<Finding>
    requires n <= |labels|
  {
    if n == 0 then [] else
    Taken(findings, labels, n - 1)
    + match TakenBy(findings, labels, n - 1) case Some(f) => [f] case None => []
  }

  /** The first pass: a confirmed label that takes an alert is caught. */
  method MatchExpected(findings: seq<Finding>, expected: seq<Incident>)
    returns (rest: seq<Finding>, caught: seq<Incident>, missed: seq<Incident>)
    ensures rest == Left(findings, expected, |expected|)
    ensures caught == Caught(findings, expected, |expected|) && missed == Missed(findings, expected, |expected|)
  {
    rest, caught, missed := findings, [], [];
    for i := 0 to |expected|
      invariant rest == Left(findings, expected, i)
      invariant caught == Caught(findings, expected, i) && missed == Missed(findings, expected, i)
    {
      var found;
      found, rest := TakeMatch(rest, expected[i]);
      match found
      case Some(_) => caught := caught + [expected[i]];
      case None => missed := missed + [expected[i]];
    }
  }

  /** The second pass: the alert a refuted label takes is a known false positive. */
  method MatchRefuted(left: seq<Finding>, refuted: seq<Incident>)
    returns (rest: seq<Finding>, wrong: seq<Finding>, cleared: nat)
    ensures rest == Left(left, refuted, |refuted|)
    ensures wrong == Taken(left, refuted, |refuted|) && cleared == |Missed(left, refuted, |refuted|)|
  {
    rest, wrong, cleared := left, [], 0;
    for i := 0 to |refuted|
      invariant rest == Left(left, refuted, i)
      invariant wrong == Taken(left, refuted, i) && cleared == |Missed(left, refuted, i)|
    {
      var found;
      found, rest := TakeMatch(rest, refuted[i]);
      match found
      case Some(finding) => wrong := wrong + [finding];
      case None => cleared := cleared + 1;
    }
  }

  /** A label takes what an assignment gives it. */
  ghost predicate Follows(findings: seq<Finding>, labels: seq<Incident>, m: Assignment, i: nat)
    requires i < |labels|
  {
    TakenBy(findings, labels, i) == if i in m && m[i] < |findings| then Some(findings[m[i]]) else None
  }

  /** The greedy assignment that the passes carry out. */
  lemma {:induction false} PassIsGreedy(findings: seq<Finding>, labels: seq<Incident>, n: nat) returns (m: Assignment)
    requires n <= |labels|
    ensures IsGreedyUpTo(Fit(findings, labels), m, n) && Leftover(findings, m) == Left(findings, labels, n)
    ensures forall i | 0 <= i < n :: Follows(findings, labels, m, i)
    decreases n
  {
    if n == 0 {
      m := map[];
      AllLeft(findings);
    } else {
      var before := PassIsGreedy(findings, labels, n - 1);
      m := NextIsGreedy(findings, labels, before, n - 1);
      forall i | 0 <= i < n - 1 ensures Follows(findings, labels, m, i) {
        assert Follows(findings, labels, before, i);
      }
    }
  }

  lemma {:induction false} NextIsGreedy(findings: seq<Finding>, labels: seq<Incident>, m: Assignment, n: nat)
    returns (p: Assignment)
    requires n < |labels| && IsGreedyUpTo(Fit(findings, labels), m, n) && Leftover(findings, m) == Left(findings, labels, n)
    ensures IsGreedyUpTo(Fit(findings, labels), p, n + 1) && Leftover(findings, p) == Left(findings, labels, n + 1)
    ensures AgreeUpTo(m, p, n) && Follows(findings, labels, p, n)
  {
    var left := Leftover(findings, m);
    NoneMatchesBefore(left, labels[n]);
    match FirstMatch(left, labels[n])
    case Some(x) =>
      TakeIsGreedy(findings, labels, m, n, x);
      TakeLeaves(findings, m, n, x);
      p := With(m, n, LeftoverAt(findings, m, x));
    case None =>
      MissIsGreedy(findings, labels, m, n);
      p := m;
  }

  lemma {:induction false} AllLeft(findings: seq<Finding>)
    ensures Leftover(findings, map[]) == findings
  {
    UnusedOfNone(|findings|);
  }

  lemma {:induction false} UnusedOfNone(n: nat)
    ensures var m: Assignment := map[];
            |Unused(n, m.Values)| == n && forall x | 0 <= x < n :: Unused(n, m.Values)[x] == x
    decreases n
  {
    if n > 0 { UnusedOfNone(n - 1); }
  }

  /** The number of hits whose block is at a position; a number seen twice keeps its last position. */
  ghost function HitsAt(blocks: seq<nat>, hits: seq<nat>, n: nat, i: nat): nat
    requires n <= |hits|
  {
    if n == 0 then 0 else HitsAt(blocks, hits, n - 1, i) + if LastPosition(blocks, hits[n - 1]) == Some(i) then 1 else 0
  }

  function LastPosition(blocks: seq<nat>, number: nat): (p: Option<nat>)
    ensures p.Some? <==> number in blocks
    ensures p.Some? ==> p.value < |blocks| && blocks[p.value] == number
  {
    if blocks == [] then None else
    var n := |blocks| - 1;
    assert blocks == blocks[..n] + [blocks[n]];
    if blocks[n] == number then Some(n) else LastPosition(blocks[..n], number)
  }

  ghost function IncidentBlocks(caught: seq<Incident>): (bs: seq<nat>)
    ensures |bs| == |caught| && forall i | 0 <= i < |bs| :: bs[i] == caught[i].block
  {
    seq(|caught|, i requires 0 <= i < |caught| => caught[i].block)
  }

  ghost function FindingBlocks(findings: seq<Finding>): (bs: seq<nat>)
    ensures |bs| == |findings| && forall i | 0 <= i < |bs| :: bs[i] == findings[i].block
  {
    seq(|findings|, i requires 0 <= i < |findings| => findings[i].block)
  }

  ghost predicate IsTally(blocks: seq<nat>, caught: seq<nat>, n: nat, wrong: seq<nat>, k: nat, tallies: seq<BlockTally>)
    requires n <= |caught| && k <= |wrong|
  {
    && |tallies| == |blocks|
    && forall i | 0 <= i < |tallies| :: tallies[i] == BlockTally(HitsAt(blocks, caught, n, i), HitsAt(blocks, wrong, k, i))
  }

  method TallyBlocks(blocks: seq<nat>, caught: seq<Incident>, unexpected: seq<Finding>)
    returns (tallies: seq<BlockTally>)
    ensures IsTally(blocks, IncidentBlocks(caught), |caught|, FindingBlocks(unexpected), |unexpected|, tallies)
  {
    tallies := seq(|blocks|, i => BlockTally(0, 0));
    for n := 0 to |caught|
      invariant IsTally(blocks, IncidentBlocks(caught), n, FindingBlocks(unexpected), 0, tallies)
    {
      var at := LastPosition(blocks, caught[n].block);
      if at.Some? {
        tallies := tallies[at.value := tallies[at.value].(confirmed := tallies[at.value].confirmed + 1)];
      }
    }
    for k := 0 to |unexpected|
      invariant IsTally(blocks, IncidentBlocks(caught), |caught|, FindingBlocks(unexpected), k, tallies)
    {
      var at := LastPosition(blocks, unexpected[k].block);
      if at.Some? {
        tallies := tallies[at.value := tallies[at.value].(refuted := tallies[at.value].refuted + 1)];
      }
    }
  }

  function Confirmed(tallies: seq<BlockTally>): nat {
    if tallies == [] then 0 else tallies[0].confirmed + Confirmed(tallies[1..])
  }

  function Refutations(tallies: seq<BlockTally>): nat {
    if tallies == [] then 0 else tallies[0].refuted + Refutations(tallies[1..])
  }

  /** The outcome of a fixture: first the confirmed labels take alerts, then the refuted ones. */
  ghost predicate IsOutcome(blocks: seq<nat>, findings: seq<Finding>, truth: Truth, r: FixtureResult) {
    var expected, refuted := truth.Expected(), truth.Refuted();
    var left := Left(findings, expected, |expected|);
    var wrong, rest := Taken(left, refuted, |refuted|), Left(left, refuted, |refuted|);
    && r.provenance == truth.Source() && r.orphaned == truth.Orphaned()
    && r.caught == Caught(findings, expected, |expected|) && r.missed == Missed(findings, expected, |expected|)
    && r.refutationsCleared == |Missed(left, refuted, |refuted|)|
    && r.unexpected == wrong + (if truth.Replay? then [] else rest)
    && r.unadjudicated == (if truth.Replay? then rest else [])
    && IsTally(blocks, IncidentBlocks(r.caught), |r.caught|, FindingBlocks(r.unexpected), |r.unexpected|, r.tallies)
  }

  /** The blocks of a replay, by number, the events the detectors emit on each, and what is known of them. */
  datatype Fixture = Fixture(blocks: seq<nat>, events: seq<seq<Event>>, truth: Truth)

  ghost predicate IsRun(f: Fixture, r: FixtureResult) {
    |f.events| == |f.blocks| && IsOutcome(f.blocks, Findings(f.blocks, f.events), f.truth, r)
  }

  /** Replay a fixture, match what was raised against its labels, and tally the verdicts by block. */
  method RunFixture(f: Fixture) returns (r: FixtureResult)
    requires |f.events| == |f.blocks|
    ensures IsRun(f, r)
  {
    var findings := ReplayAll(f.blocks, f.events);
    var left, caught, missed := MatchExpected(findings, f.truth.Expected());
    var rest, wrong, cleared := MatchRefuted(left, f.truth.Refuted());
    var unexpected := if f.truth.Replay? then wrong else wrong + rest;
    var unadjudicated := if f.truth.Replay? then rest else [];
    var tallies := TallyBlocks(f.blocks, caught, unexpected);
    r := FixtureResult(f.truth.Source(), caught, missed, unexpected, unadjudicated, cleared, f.truth.Orphaned(), tallies);
  }

  // ----- What matching achieves -----

  ghost predicate IsBestMatch(findings: seq<Finding>, labels: seq<Incident>) {
    forall o | IsMatching(Fit(findings, labels), o) :: |o| <= |Caught(findings, labels, |labels|)|
  }

  lemma {:induction false} GreedyOfAll(findings: seq<Finding>, labels: seq<Incident>) returns (m: Assignment)
    ensures IsGreedy(Fit(findings, labels), m) && Leftover(findings, m) == Left(findings, labels, |labels|)
    ensures |m| == |Caught(findings, labels, |labels|)|
    ensures forall i | 0 <= i < |labels| :: TakenBy(findings, labels, i).Some? <==> i in m
  {
    m := PassIsGreedy(findings, labels, |labels|);
    forall i | 0 <= i < |labels| ensures TakenBy(findings, labels, i).Some? <==> i in m {
      assert Follows(findings, labels, m, i);
      assert i in m ==> Fit(findings, labels)(i, m[i]);
    }
    CaughtCount(findings, labels, m, |labels|);
    assert Below(m.Keys, |labels|) == m.Keys;
  }

  lemma {:induction false} CaughtCount(findings: seq<Finding>, labels: seq<Incident>, m: Assignment, n: nat)
    requires n <= |labels| && forall i | 0 <= i < n :: TakenBy(findings, labels, i).Some? <==> i in m
    ensures |Caught(findings, labels, n)| == |Below(m.Keys, n)|
    decreases n
  {
    if n > 0 {
      CaughtCount(findings, labels, m, n - 1);
    }
  }

  /** No missed label matches an alert that is left over. */
  lemma {:induction false} MissedMatchesNothingLeft(findings: seq<Finding>, labels: seq<Incident>, i: nat, f: Finding)
    requires i < |labels| && TakenBy(findings, labels, i).None? && f in Left(findings, labels, |labels|)
    ensures !f.Matches(labels[i])
  {
    var m := GreedyOfAll(findings, labels);
    var x :| 0 <= x < |Leftover(findings, m)| && Leftover(findings, m)[x] == f;
    UnusedAre(|findings|, m.Values);
    GreedyIsMaximal(Fit(findings, labels), m, i, LeftoverAt(findings, m, x));
  }

  /** At least half as many labels are caught as any one-to-one matching could catch. */
  lemma {:induction false} CatchesHalfOfBest(findings: seq<Finding>, labels: seq<Incident>, o: Assignment)
    requires IsMatching(Fit(findings, labels), o)
    ensures |o| <= 2 * |Caught(findings, labels, |labels|)|
  {
    var m := GreedyOfAll(findings, labels);
    GreedyIsHalfOfBest(Fit(findings, labels), m, o);
  }

  predicate SameSlot(a: Incident, b: Incident) {
    a.block == b.block && a.detector == b.detector && a.kind == b.kind
  }

  /** No label that accepts any transactions comes before one of its slot that pins them. */
  ghost predicate PinnedFirst(labels: seq<Incident>) {
    forall i, k | 0 <= i < k < |labels| && SameSlot(labels[i], labels[k]) && labels[k].txs.Some? :: labels[i].txs.Some?
  }

  lemma {:induction false} PinnedFirstIsNested(findings: seq<Finding>, labels: seq<Incident>)
    requires PinnedFirst(labels)
    ensures Nested(Fit(findings, labels))
  {
    var fits := Fit(findings, labels);
    forall i: nat, k: nat, j: nat, other: nat | i < k && fits(i, j) && fits(k, j) && fits(i, other) ensures fits(k, other) {
      NestedPair(labels[i], labels[k], findings[j], findings[other]);
    }
  }

  lemma {:induction false} NestedPair(a: Incident, b: Incident, f: Finding, g: Finding)
    requires f.Matches(a) && f.Matches(b) && g.Matches(a) && (b.txs.Some? ==> a.txs.Some?)
    ensures g.Matches(b)
  {}

  /** With the pinned labels of each slot first, as many labels are caught as can be. */
  lemma {:induction false} CatchesTheMost(findings: seq<Finding>, labels: seq<Incident>)
    requires PinnedFirst(labels)
    ensures IsBestMatch(findings, labels)
  {
    var m := GreedyOfAll(findings, labels);
    PinnedFirstIsNested(findings, labels);
    forall o | IsMatching(Fit(findings, labels), o) ensures |o| <= |Caught(findings, labels, |labels|)| {
      GreedyIsBest(Fit(findings, labels), m, o, |labels|);
    }
  }

  // ----- And when it does not -----

  function AboveBlocks(labels: seq<Incident>): (b: nat)
    ensures forall l <- labels :: l.block < b
  {
    if labels == [] then 0 else
    var rest := AboveBlocks(labels[1..]);
    assert labels == [labels[0]] + labels[1..];
    if labels[0].block < rest then rest else labels[0].block + 1
  }

  function AboveAll(txs: seq<nat>): (t: nat)
    ensures forall x <- txs :: x < t
  {
    if txs == [] then 0 else
    var rest := AboveAll(txs[1..]);
    assert txs == [txs[0]] + txs[1..];
    if txs[0] < rest then rest else txs[0] + 1
  }

  function AboveTxs(labels: seq<Incident>): (t: nat)
    ensures forall l <- labels :: l.txs.Some? ==> forall x <- l.txs.value :: x < t
  {
    if labels == [] then 0 else
    var rest := AboveTxs(labels[1..]);
    var own := if labels[0].txs.Some? then AboveAll(labels[0].txs.value) else 0;
    assert labels == [labels[0]] + labels[1..];
    if own < rest then rest else own
  }

  /** What each pinned label names, then for each label an alert of its slot that nobody pins. */
  ghost function Adverse(labels: seq<Incident>): seq<Finding> {
    seq(2 * |labels|, j requires 0 <= j < 2 * |labels| => AdverseAt(labels, j))
  }

  ghost function AdverseAt(labels: seq<Incident>, j: nat): Finding
    requires j < 2 * |labels|
  {
    var l := labels[if j < |labels| then j else j - |labels|];
    if j >= |labels| then Finding(l.block, l.detector, l.kind, [AboveTxs(labels)])
    else match l.txs
         case Some(txs) => Finding(l.block, l.detector, l.kind, txs)
         case None => Finding(AboveBlocks(labels), l.detector, l.kind, [])
  }

  ghost function Pinned(labels: seq<Incident>): set<nat> {
    set i | 0 <= i < |labels| && labels[i].txs.Some?
  }

  /** The alert meant for a label: by position its own copy, or its own alert that nobody pins. */
  function Own(labels: seq<Incident>, i: nat): nat
    requires i < |labels|
  {
    if labels[i].txs.Some? then i else |labels| + i
  }

  lemma {:induction false} OwnFits(labels: seq<Incident>, i: nat)
    requires i < |labels|
    ensures Fit(Adverse(labels), labels)(i, Own(labels, i))
  {}

  /** The alerts nobody pins fit no pinned label, and the placeholders fit no label at all. */
  lemma {:induction false} PinnedTakesPinned(labels: seq<Incident>, i: nat, j: nat)
    requires Fit(Adverse(labels), labels)(i, j)
    ensures j < |labels| ==> j in Pinned(labels)
    ensures i in Pinned(labels) ==> j < |labels|
  {
    assert labels[i] in labels;
    if j >= |labels| {
      NotPinned(labels[i], AdverseAt(labels, j), AboveTxs(labels));
    }
  }

  lemma {:induction false} NotPinned(i: Incident, f: Finding, t: nat)
    requires f.Matches(i) && f.txs == [t] && (i.txs.Some? ==> t !in i.txs.value)
    ensures i.txs.None?
  {
    assert t in TxSet(f.txs);
  }

  lemma {:induction false} EveryLabelHasAnAlert(labels: seq<Incident>) returns (o: Assignment)
    ensures IsMatching(Fit(Adverse(labels), labels), o) && |o| == |labels|
  {
    o := map i: nat | i in KeysUpTo(|labels|) :: Own(labels, i);
    assert o.Keys == KeysUpTo(|labels|);
    forall i <- o ensures Fit(Adverse(labels), labels)(i, o[i]) {
      OwnFits(labels, i);
    }
  }

  lemma {:induction false} AdverseFits(labels: seq<Incident>)
    ensures OwnOnly(Fit(Adverse(labels), labels), |labels|, Pinned(labels))
  {
    forall i: nat, j: nat | Fit(Adverse(labels), labels)(i, j)
      ensures i < |labels| && (j < |labels| ==> j in Pinned(labels)) && (i in Pinned(labels) ==> j < |labels|)
    {
      PinnedTakesPinned(labels, i, j);
    }
  }

  lemma {:induction false} AnyFitsMore(findings: seq<Finding>, labels: seq<Incident>, u: nat, p: nat)
    requires u < |labels| && p < |labels| && SameSlot(labels[u], labels[p]) && labels[u].txs.None?
    ensures forall j: nat | Fit(findings, labels)(p, j) :: Fit(findings, labels)(u, j)
  {}

  lemma {:induction false} AdverseStarves(labels: seq<Incident>, u: nat, p: nat, m: Assignment)
    requires u < p < |labels| && SameSlot(labels[u], labels[p]) && labels[u].txs.None? && labels[p].txs.Some?
    requires IsGreedy(Fit(Adverse(labels), labels), m)
    ensures |m| < |labels|
  {
    AdverseFits(labels);
    AnyFitsMore(Adverse(labels), labels, u, p);
    Starved(Fit(Adverse(labels), labels), m, |labels|, Pinned(labels), u, p);
  }

  /** A label that accepts any transactions, before a pinned one of its slot, can cost a catch. */
  lemma {:induction false} MissesOne(labels: seq<Incident>, u: nat, p: nat)
    requires u < p < |labels| && SameSlot(labels[u], labels[p]) && labels[u].txs.None? && labels[p].txs.Some?
    ensures !IsBestMatch(Adverse(labels), labels)
  {
    var m := GreedyOfAll(Adverse(labels), labels);
    AdverseStarves(labels, u, p, m);
    var o := EveryLabelHasAnAlert(labels);
  }

  /** Whatever alerts are raised, greedy is best: exactly when each slot lists its pinned labels first. */
  lemma {:induction false} CatchesTheMostIff(labels: seq<Incident>)
    ensures (forall findings :: IsBestMatch(findings, labels)) <==> PinnedFirst(labels)
  {
    if PinnedFirst(labels) {
      forall findings ensures IsBestMatch(findings, labels) {
        CatchesTheMost(findings, labels);
      }
    } else {
      var u: nat, p: nat :| u < p < |labels| && SameSlot(labels[u], labels[p]) && labels[p].txs.Some? && labels[u].txs.None?;
      MissesOne(labels, u, p);
    }
  }

  // ----- Counts that do not depend on the order of the labels -----

  predicate SameKey(a: Incident, b: Incident) {
    SameSlot(a, b) && (a.txs.Some? <==> b.txs.Some?) && (a.txs.Some? ==> SameSet(a.txs.value, b.txs.value))
  }

  /** The labels of a slot either all pin their transactions or none does. */
  ghost predicate Uniform(labels: seq<Incident>) {
    forall a <- labels, b <- labels :: SameSlot(a, b) ==> (a.txs.Some? <==> b.txs.Some?)
  }

  ghost function Alike(labels: seq<Incident>, incident: Incident): set<nat> {
    set k | 0 <= k < |labels| && SameKey(incident, labels[k])
  }

  ghost function AlertsFor(findings: seq<Finding>, incident: Incident): set<nat> {
    set j | 0 <= j < |findings| && findings[j].Matches(incident)
  }

  ghost function CaughtAlike(findings: seq<Finding>, labels: seq<Incident>, incident: Incident): set<nat> {
    set k | 0 <= k < |labels| && SameKey(incident, labels[k]) && TakenBy(findings, labels, k).Some?
  }

  lemma {:induction false} AlikeIsClass(findings: seq<Finding>, labels: seq<Incident>, incident: Incident)
    requires Uniform(labels) && incident in labels
    ensures IsClass(Fit(findings, labels), Alike(labels, incident), AlertsFor(findings, incident))
  {
    var fits := Fit(findings, labels);
    forall i: nat, j: nat | i in Alike(labels, incident) && j in AlertsFor(findings, incident) ensures fits(i, j) {
      SameKeySameAlerts(incident, labels[i], findings[j]);
    }
    forall i: nat, j: nat | fits(i, j) ensures i in Alike(labels, incident) <==> j in AlertsFor(findings, incident) {
      assert labels[i] in labels;
      SameKeySameAlerts(incident, labels[i], findings[j]);
    }
  }

  lemma {:induction false} SameKeySameAlerts(a: Incident, b: Incident, f: Finding)
    requires f.Matches(b) || SameKey(a, b)
    requires SameSlot(a, b) ==> (a.txs.Some? <==> b.txs.Some?)
    ensures SameKey(a, b) ==> (f.Matches(a) <==> f.Matches(b))
    ensures f.Matches(a) && f.Matches(b) ==> SameKey(a, b)
  {}

  /** Of each kind of label as many are caught as there are labels of it or alerts for it. */
  lemma {:induction false} CaughtPerKey(findings: seq<Finding>, labels: seq<Incident>, incident: Incident)
    requires Uniform(labels) && incident in labels
    ensures |CaughtAlike(findings, labels, incident)|
         == Min(|Alike(labels, incident)|, |AlertsFor(findings, incident)|)
  {
    var m := GreedyOfAll(findings, labels);
    AlikeIsClass(findings, labels, incident);
    ClassCount(Fit(findings, labels), m, Alike(labels, incident), AlertsFor(findings, incident));
    assert CaughtAlike(findings, labels, incident) == Alike(labels, incident) * m.Keys;
  }

  ghost function One(incident: Incident): Incident -> nat {
    l => if SameKey(incident, l) then 1 else 0
  }

  lemma {:induction false} AlikeSize(labels: seq<Incident>, incident: Incident)
    ensures |Alike(labels, incident)| == Sum(labels, One(incident))
    decreases |labels|
  {
    if labels == [] {
      assert Alike(labels, incident) == {};
    } else {
      var n := |labels| - 1;
      AlikeSize(labels[..n], incident);
      SumSnoc(labels, n, One(incident));
      assert labels[..n + 1] == labels;
      AlikeNext(labels, incident);
    }
  }

  lemma {:induction false} AlikeNext(labels: seq<Incident>, incident: Incident)
    requires labels != []
    ensures var n := |labels| - 1;
            |Alike(labels, incident)| == |Alike(labels[..n], incident)| + One(incident)(labels[n])
  {
    var n := |labels| - 1;
    assert Alike(labels, incident) == Alike(labels[..n], incident) + if SameKey(incident, labels[n]) then {n} else {};
  }

  /** Listing the labels in another order catches as many of each kind. */
  lemma {:induction false} OrderOfLabelsIsIrrelevant(findings: seq<Finding>, labels: seq<Incident>,
                                                     other: seq<Incident>,
                                                     incident: Incident)
    requires Uniform(labels) && multiset(labels) == multiset(other) && incident in labels
    ensures |CaughtAlike(findings, labels, incident)| == |CaughtAlike(findings, other, incident)|
  {
    forall l | l in other ensures l in labels { assert l in multiset(other); }
    assert incident in multiset(labels);
    CaughtPerKey(findings, labels, incident);
    CaughtPerKey(findings, other, incident);
    AlikeSize(labels, incident);
    AlikeSize(other, incident);
    SumPermutation(labels, other, One(incident));
  }

  /** Where each label of a list stands in a permutation of it. */
  ghost predicate IsRenumbering(labels: seq<Incident>, other: seq<Incident>, numbers: map<nat, nat>) {
    && (forall i: nat :: i in numbers <==> i < |labels|)
    && (forall i <- numbers :: i < |labels| && numbers[i] < |other| && other[numbers[i]] == labels[i])
    && (forall i, k | i in numbers && k in numbers && i != k :: numbers[i] != numbers[k])
  }

  ghost function Past(i: nat, k: nat): nat { if k < i then k else k + 1 }

  ghost function ShiftPast(numbers: map<nat, nat>, n: nat, i: nat): map<nat, nat> {
    map k: nat | k in KeysUpTo(n + 1) :: if k in numbers then Past(i, numbers[k]) else i
  }

  lemma {:induction false} Renumber(labels: seq<Incident>, other: seq<Incident>) returns (numbers: map<nat, nat>)
    requires multiset(labels) == multiset(other)
    ensures IsRenumbering(labels, other, numbers)
    decreases |labels|
  {
    if labels == [] {
      numbers := map[];
    } else {
      var n := |labels| - 1;
      var i := TakeOutLast(labels, other);
      var before := Renumber(labels[..n], other[..i] + other[i + 1..]);
      numbers := ShiftPast(before, n, i);
      RenumberOneMore(labels, other, i, before);
    }
  }

  lemma {:induction false} RenumberOneMore(labels: seq<Incident>, other: seq<Incident>, i: nat, before: map<nat, nat>)
    requires labels != [] && i < |other| && other[i] == labels[|labels| - 1]
    requires IsRenumbering(labels[..|labels| - 1], other[..i] + other[i + 1..], before)
    ensures IsRenumbering(labels, other, ShiftPast(before, |labels| - 1, i))
  {
    var n := |labels| - 1;
    var rest, numbers := other[..i] + other[i + 1..], ShiftPast(before, n, i);
    forall k <- numbers ensures k <= n && numbers[k] < |other| && other[numbers[k]] == labels[k] {
      if k < n { assert rest[before[k]] == labels[..n][k]; }
    }
  }

  /** As many labels can be caught in one order as in another. */
  lemma {:induction false} MatchesInAnyOrder(findings: seq<Finding>, labels: seq<Incident>, other: seq<Incident>,
                                             o: Assignment)
    returns (p: Assignment)
    requires multiset(labels) == multiset(other) && IsMatching(Fit(findings, labels), o)
    ensures IsMatching(Fit(findings, other), p) && |p| == |o|
  {
    var numbers := Renumber(labels, other);
    forall i <- o ensures i in numbers && Fit(findings, other)(numbers[i], o[i]) {
      assert Fit(findings, labels)(i, o[i]);
    }
    p := RenameLabels(Fit(findings, labels), Fit(findings, other), o, numbers);
  }

  lemma {:induction false} BestIsNoWorse(findings: seq<Finding>, labels: seq<Incident>, other: seq<Incident>)
    requires multiset(labels) == multiset(other) && PinnedFirst(other)
    ensures |Caught(findings, labels, |labels|)| <= |Caught(findings, other, |other|)|
  {
    var m := GreedyOfAll(findings, labels);
    var p := MatchesInAnyOrder(findings, labels, other, m);
    CatchesTheMost(findings, other);
  }

  /** The labels that pin their transactions, or those that do not, in order. */
  ghost function OnlyThose(labels: seq<Incident>, pinned: bool): (r: seq<Incident>)
    ensures forall l <- r :: l in labels && l.txs.Some? == pinned
    ensures forall l <- labels :: l.txs.Some? == pinned ==> l in r
  {
    if labels == [] then [] else
    var rest := OnlyThose(labels[1..], pinned);
    assert labels == [labels[0]] + labels[1..];
    if labels[0].txs.Some? == pinned then [labels[0]] + rest else rest
  }

  lemma {:induction false} BothKinds(labels: seq<Incident>)
    ensures multiset(OnlyThose(labels, true)) + multiset(OnlyThose(labels, false)) == multiset(labels)
    decreases |labels|
  {
    if labels != [] {
      BothKinds(labels[1..]);
      assert labels == [labels[0]] + labels[1..];
    }
  }

  /** The unpinned labels first, where a slot has both kinds: an unpinned one precedes a pinned one. */
  lemma {:induction false} MixedSlot(labels: seq<Incident>, last: seq<Incident>) returns (u: nat, p: nat)
    requires !Uniform(labels) && last == OnlyThose(labels, false) + OnlyThose(labels, true)
    ensures u < p < |last| && SameSlot(last[u], last[p]) && last[u].txs.None? && last[p].txs.Some?
  {
    var a, b := MixedPair(labels);
    var pinned, others := OnlyThose(labels, true), OnlyThose(labels, false);
    var i :| 0 <= i < |others| && others[i] == a;
    var k :| 0 <= k < |pinned| && pinned[k] == b;
    u, p := i, |others| + k;
  }

  lemma {:induction false} MixedPair(labels: seq<Incident>) returns (a: Incident, b: Incident)
    requires !Uniform(labels)
    ensures a in labels && b in labels && SameSlot(a, b) && a.txs.None? && b.txs.Some?
  {
    var x, y :| x in labels && y in labels && SameSlot(x, y) && !(x.txs.Some? <==> y.txs.Some?);
    if x.txs.Some? { a, b := y, x; } else { a, b := x, y; }
  }

  lemma {:induction false} UnpinnedFirstMissesOne(labels: seq<Incident>, last: seq<Incident>)
    requires !Uniform(labels) && last == OnlyThose(labels, false) + OnlyThose(labels, true)
    ensures |Caught(Adverse(last), last, |last|)| < |last|
  {
    var u, p := MixedSlot(labels, last);
    var m := GreedyOfAll(Adverse(last), last);
    AdverseStarves(last, u, p, m);
  }

  lemma {:induction false} PinnedFirstMissesNone(first: seq<Incident>, last: seq<Incident>)
    requires multiset(first) == multiset(last) && PinnedFirst(first)
    ensures |Caught(Adverse(last), first, |first|)| >= |last|
  {
    var o := EveryLabelHasAnAlert(last);
    var q := MatchesInAnyOrder(Adverse(last), last, first, o);
    CatchesTheMost(Adverse(last), first);
  }

  ghost predicate OrderIsIrrelevant(labels: seq<Incident>) {
    forall findings, other | multiset(other) == multiset(labels) ::
      |Caught(findings, labels, |labels|)| == |Caught(findings, other, |other|)|
  }

  lemma {:induction false} OrdersDiffer(findings: seq<Finding>, labels: seq<Incident>, first: seq<Incident>,
                                        last: seq<Incident>)
    requires multiset(first) == multiset(labels) == multiset(last)
    requires |Caught(findings, first, |first|)| != |Caught(findings, last, |last|)|
    ensures !OrderIsIrrelevant(labels)
  {
    var own := |Caught(findings, labels, |labels|)|;
    assert |Caught(findings, first, |first|)| != own || |Caught(findings, last, |last|)| != own;
  }

  /** Mixed slots: one order catches every label an adverse replay has an alert for, another misses one. */
  lemma {:induction false} OrderMatters(labels: seq<Incident>)
    requires !Uniform(labels)
    ensures !OrderIsIrrelevant(labels)
  {
    var first := OnlyThose(labels, true) + OnlyThose(labels, false);
    var last := OnlyThose(labels, false) + OnlyThose(labels, true);
    BothKinds(labels);
    assert multiset(first) == multiset(labels) == multiset(last);
    UnpinnedFirstMissesOne(labels, last);
    PinnedFirstMissesNone(first, last);
    OrdersDiffer(Adverse(last), labels, first, last);
  }

  /**
   The order of a list of labels makes no difference to how many are caught, whatever alerts
   are raised, exactly when the labels of each slot all pin transactions or none does.
   */
  lemma {:induction false} OrderIsIrrelevantIff(labels: seq<Incident>)
    ensures OrderIsIrrelevant(labels) <==> Uniform(labels)
  {
    if Uniform(labels) {
      forall findings, other | multiset(other) == multiset(labels)
        ensures |Caught(findings, labels, |labels|)| == |Caught(findings, other, |other|)|
      {
        forall l | l in other ensures l in labels { assert l in multiset(other); }
        BestIsNoWorse(findings, labels, other);
        BestIsNoWorse(findings, other, labels);
      }
    } else {
      OrderMatters(labels);
    }
  }

  lemma {:induction false} SecondOfTwo(f: Finding, g: Finding, a: Incident, b: Incident)
    requires f.Matches(a)
    ensures |Caught([f, g], [a, b], 2)| == if g.Matches(b) then 2 else 1
  {
    var findings, labels := [f, g], [a, b];
    assert FirstMatch(findings, a) == Some(0);
    assert Left(findings, labels, 1) == [g];
    assert FirstMatch([g], b) == if g.Matches(b) then Some(0) else None by { assert [g][1..] == []; }
    assert |Caught(findings, labels, 1)| == 1 by { assert Caught(findings, labels, 0) == []; }
  }

  /** The same two labels catch one alert or two. */
  lemma {:induction false} OrderCanMatter(any: Incident, pinned: Incident, f: Finding, g: Finding)
    requires any == Incident(1, "d", 0, None) && pinned == Incident(1, "d", 0, Some([7]))
    requires f == Finding(1, "d", 0, [7]) && g == Finding(1, "d", 0, [8])
    ensures |Caught([f, g], [any, pinned], 2)| == 1 && |Caught([f, g], [pinned, any], 2)| == 2
  {
    assert 7 in TxSet([7]) && 7 !in TxSet([8]);
    SecondOfTwo(f, g, any, pinned);
    SecondOfTwo(f, g, pinned, any);
  }

  // ----- Conservation -----

  lemma {:induction false} EachTakesOne(findings: seq<Finding>, labels: seq<Incident>, n: nat)
    requires n <= |labels|
    ensures |Caught(findings, labels, n)| == |Taken(findings, labels, n)|
    ensures |Caught(findings, labels, n)| + |Missed(findings, labels, n)| == n
    decreases n
  {
    if n > 0 { EachTakesOne(findings, labels, n - 1); }
  }

  /** What labels take and what they leave add up. */
  lemma {:induction false} TakenAndLeftAddUp(findings: seq<Finding>, labels: seq<Incident>)
    ensures |Taken(findings, labels, |labels|)| + |Left(findings, labels, |labels|)| == |findings|
  {
    var m := GreedyOfAll(findings, labels);
    EachTakesOne(findings, labels, |labels|);
    ValuesOfMatching(Fit(findings, labels), m);
    UnusedSize(|findings|, m.Values);
    forall j <- m.Values ensures j < |findings| {
      var i :| i in m && m[i] == j;
      assert Fit(findings, labels)(i, j);
    }
    assert Below(m.Values, |findings|) == m.Values;
  }

  /** Every alert and every label is counted once: nothing raised is dropped or judged twice. */
  lemma {:induction false} NothingIsDropped(blocks: seq<nat>, findings: seq<Finding>, truth: Truth, r: FixtureResult)
    requires IsOutcome(blocks, findings, truth, r)
    ensures |r.caught| + |r.missed| == |truth.Expected()|
    ensures |findings| == |r.caught| + |r.unexpected| + |r.unadjudicated|
    ensures truth.Replay? ==> |r.unexpected| + r.refutationsCleared == |truth.Refuted()|
    ensures !truth.Replay? ==> r.unadjudicated == [] && r.refutationsCleared == 0
  {
    var expected, refuted := truth.Expected(), truth.Refuted();
    var left := Left(findings, expected, |expected|);
    EachTakesOne(findings, expected, |expected|);
    EachTakesOne(left, refuted, |refuted|);
    TakenAndLeftAddUp(findings, expected);
    TakenAndLeftAddUp(left, refuted);
  }

  // ----- Tallies -----

  ghost function TotalHits(blocks: seq<nat>, hits: seq<nat>, n: nat, size: nat): nat
    requires n <= |hits|
  {
    if size == 0 then 0 else TotalHits(blocks, hits, n, size - 1) + HitsAt(blocks, hits, n, size - 1)
  }

  lemma {:induction false} OneMoreHit(blocks: seq<nat>, hits: seq<nat>, n: nat, size: nat)
    requires 0 < n <= |hits|
    ensures var at := LastPosition(blocks, hits[n - 1]);
            TotalHits(blocks, hits, n, size)
            == TotalHits(blocks, hits, n - 1, size) + if at.Some? && at.value < size then 1 else 0
    decreases size
  {
    if size > 0 { OneMoreHit(blocks, hits, n, size - 1); }
  }

  lemma {:induction false} NoHits(blocks: seq<nat>, hits: seq<nat>, size: nat)
    ensures TotalHits(blocks, hits, 0, size) == 0
    decreases size
  {
    if size > 0 { NoHits(blocks, hits, size - 1); }
  }

  /** Hits on the fixture's own blocks are each tallied once. */
  lemma {:induction false} EveryHitIsTallied(blocks: seq<nat>, hits: seq<nat>, n: nat)
    requires n <= |hits| && forall h <- hits :: h in blocks
    ensures TotalHits(blocks, hits, n, |blocks|) == n
    decreases n
  {
    if n == 0 {
      NoHits(blocks, hits, |blocks|);
    } else {
      EveryHitIsTallied(blocks, hits, n - 1);
      OneMoreHit(blocks, hits, n, |blocks|);
      assert hits[n - 1] in hits;
    }
  }

  lemma {:induction false} TalliesTotal(blocks: seq<nat>, caught: seq<nat>, wrong: seq<nat>, tallies: seq<BlockTally>,
                                        size: nat)
    requires IsTally(blocks, caught, |caught|, wrong, |wrong|, tallies) && size <= |tallies|
    ensures Confirmed(tallies[..size]) == TotalHits(blocks, caught, |caught|, size)
    ensures Refutations(tallies[..size]) == TotalHits(blocks, wrong, |wrong|, size)
    decreases size
  {
    if size > 0 {
      TalliesTotal(blocks, caught, wrong, tallies, size - 1);
      assert tallies[..size] == tallies[..size - 1] + [tallies[size - 1]];
      TalliesAppend(tallies[..size - 1], [tallies[size - 1]]);
    }
  }

  lemma {:induction false} TalliesAppend(a: seq<BlockTally>, b: seq<BlockTally>)
    ensures Confirmed(a + b) == Confirmed(a) + Confirmed(b)
    ensures Refutations(a + b) == Refutations(a) + Refutations(b)
    decreases |a|
  {
    if a == [] {
      assert a + b == b;
    } else {
      assert (a + b)[1..] == a[1..] + b;
      TalliesAppend(a[1..], b);
    }
  }

  /** The verdicts tallied by block are all of the fixture's verdicts. */
  lemma {:induction false} TalliesSumToVerdicts(blocks: seq<nat>, findings: seq<Finding>, truth: Truth,
                                                r: FixtureResult)
    requires IsOutcome(blocks, findings, truth, r) && forall f <- findings :: f.block in blocks
    ensures Confirmed(r.tallies) == |r.caught| && Refutations(r.tallies) == |r.unexpected|
  {
    VerdictsAreOnBlocks(blocks, findings, truth, r);
    EveryHitIsTallied(blocks, IncidentBlocks(r.caught), |r.caught|);
    EveryHitIsTallied(blocks, FindingBlocks(r.unexpected), |r.unexpected|);
    TalliesTotal(blocks, IncidentBlocks(r.caught), FindingBlocks(r.unexpected), r.tallies, |blocks|);
    assert r.tallies[..|blocks|] == r.tallies;
  }

  lemma {:induction false} LeftWasRaised(findings: seq<Finding>, labels: seq<Incident>, n: nat)
    requires n <= |labels|
    ensures forall f <- Left(findings, labels, n) :: f in findings
    decreases n
  {
    if n > 0 { LeftWasRaised(findings, labels, n - 1); }
  }

  lemma {:induction false} TakenIsRaised(findings: seq<Finding>, labels: seq<Incident>, n: nat)
    requires n < |labels|
    ensures var f := TakenBy(findings, labels, n);
            f.Some? ==> f.value in findings && f.value.Matches(labels[n])
  {
    LeftWasRaised(findings, labels, n);
  }

  lemma {:induction false} TakenWasRaised(findings: seq<Finding>, labels: seq<Incident>, n: nat)
    requires n <= |labels|
    ensures forall f <- Taken(findings, labels, n) :: f in findings
    decreases n
  {
    if n > 0 {
      TakenWasRaised(findings, labels, n - 1);
      TakenIsRaised(findings, labels, n - 1);
    }
  }

  lemma {:induction false} LabelOnBlocks(blocks: seq<nat>, findings: seq<Finding>, labels: seq<Incident>, n: nat)
    requires n < |labels| && forall f <- findings :: f.block in blocks
    ensures TakenBy(findings, labels, n).Some? ==> labels[n].block in blocks
  {
    TakenIsRaised(findings, labels, n);
  }

  ghost predicate OnBlocks(blocks: seq<nat>, labels: seq<Incident>) {
    forall l <- labels :: l.block in blocks
  }

  lemma {:induction false} CaughtOnBlocks(blocks: seq<nat>, findings: seq<Finding>, labels: seq<Incident>, n: nat)
    requires n <= |labels| && forall f <- findings :: f.block in blocks
    ensures OnBlocks(blocks, Caught(findings, labels, n))
    decreases n
  {
    if n > 0 {
      CaughtOnBlocks(blocks, findings, labels, n - 1);
      LabelOnBlocks(blocks, findings, labels, n - 1);
      OneMoreOnBlocks(blocks, Caught(findings, labels, n - 1), labels[n - 1]);
    }
  }

  lemma {:induction false} OneMoreOnBlocks(blocks: seq<nat>, labels: seq<Incident>, l: Incident)
    requires OnBlocks(blocks, labels)
    ensures l.block in blocks ==> OnBlocks(blocks, labels + [l])
    ensures OnBlocks(blocks, labels + [])
  {
    assert labels + [] == labels;
  }

  lemma {:induction false} VerdictsAreOnBlocks(blocks: seq<nat>, findings: seq<Finding>, truth: Truth, r: FixtureResult)
    requires IsOutcome(blocks, findings, truth, r) && forall f <- findings :: f.block in blocks
    ensures forall b <- IncidentBlocks(r.caught) :: b in blocks
    ensures forall b <- FindingBlocks(r.unexpected) :: b in blocks
  {
    var expected, refuted := truth.Expected(), truth.Refuted();
    var left := Left(findings, expected, |expected|);
    CaughtOnBlocks(blocks, findings, expected, |expected|);
    LeftWasRaised(findings, expected, |expected|);
    TakenWasRaised(left, refuted, |refuted|);
    LeftWasRaised(left, refuted, |refuted|);
  }
}
