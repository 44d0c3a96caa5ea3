/**
 The event store over the growth horizon, a day at a time. Volumes are reals; the daily
 growth factor is a parameter.
 */
module Timeline {
  import opened Common

  const DAYS_PER_YEAR: nat := 365

  function Power(base: real, n: nat): real {
    if n == 0 then 1.0 else base * Power(base, n - 1)
  }

  /** What the walk takes from the model: volumes in GiB, fills as fractions. */
  datatype Model = Model(
    horizonYears: nat, dailyGrowth: real,
    dayOne: real, kafkaDayOne: real, kafkaRetention: real,
    storeCeiling: real, kafkaCeiling: real, shardCapacity: real,
    coldAfter: Option<nat>, replicas: nat, kafkaReplication: nat, kafkaBrokers: nat)
  {
    predicate Valid() {
      dailyGrowth > 0.0 && dayOne >= 0.0 && kafkaDayOne >= 0.0 && shardCapacity > 0.0 && kafkaBrokers > 0
    }

    function Horizon(): nat {
      horizonYears * DAYS_PER_YEAR
    }

    /** The volume that arrives on a day. */
    function Today(day: nat): real {
      dayOne * Power(dailyGrowth, day)
    }

    function KafkaHeld(day: nat): real {
      kafkaDayOne * Power(dailyGrowth, day) * kafkaRetention
    }

    /** The volumes of the days from `lo` up to `hi`. */
    function Volume(lo: nat, hi: nat): real
      decreases hi
    {
      if hi <= lo then 0.0 else Volume(lo, hi - 1) + Today(hi - 1)
    }

    /** What is held at the end of a day: the last `window` days. */
    function Stored(window: nat, day: nat): real {
      Volume(if day + 1 > window then day + 1 - window else 0, day + 1)
    }
  }

  lemma {:induction false} PowerPositive(base: real, n: nat)
    requires base > 0.0
    ensures Power(base, n) > 0.0
    decreases n
  {
    if n > 0 { PowerPositive(base, n - 1); }
  }

  lemma {:induction false} VolumeSplits(m: Model, lo: nat, mid: nat, hi: nat)
    requires lo <= mid <= hi
    ensures m.Volume(lo, hi) == m.Volume(lo, mid) + m.Volume(mid, hi)
    decreases hi
  {
    if mid < hi { VolumeSplits(m, lo, mid, hi - 1); }
  }

  lemma {:induction false} VolumeNonneg(m: Model, lo: nat, hi: nat)
    requires m.Valid()
    ensures m.Volume(lo, hi) >= 0.0
    decreases hi
  {
    if lo < hi {
      VolumeNonneg(m, lo, hi - 1);
      PowerPositive(m.dailyGrowth, hi - 1);
      Times(m.dayOne, Power(m.dailyGrowth, hi - 1));
    }
  }

  lemma {:induction false} Times(a: real, b: real)
    requires a >= 0.0 && b >= 0.0
    ensures a * b >= 0.0
  {}

  /** Taking today in and the oldest day out keeps the sum of the last `window` days. */
  lemma {:induction false} WindowSlides(m: Model, window: nat, day: nat, before: real)
    requires before == if day == 0 then 0.0 else m.Stored(window, day - 1)
    ensures m.Stored(window, day) == before + m.Today(day) - (if day + 1 > window then m.Today(day - window) else 0.0)
  {
    if day + 1 > window {
      var lo := day + 1 - window;
      VolumeSplits(m, lo - 1, lo, day + 1);
      assert m.Volume(lo - 1, lo) == m.Today(lo - 1) by { assert m.Volume(lo - 1, lo - 1) == 0.0; }
      assert m.Volume(lo - 1, day + 1) == m.Volume(lo - 1, day) + m.Today(day);
      assert before == m.Volume(lo - 1, day);
    } else {
      assert before == m.Volume(0, day);
    }
  }

  // ----- Shards -----

  function Shards(local: real, capacity: real): nat
    requires capacity > 0.0
  {
    var n := Ceil(local / capacity);
    if n < 1 then 1 else n
  }

  ghost predicate Hold(shards: nat, capacity: real, local: real) {
    local <= shards as real * capacity
  }

  /** The fewest shards, at least one, that hold the local volume. */
  ghost predicate IsFewest(local: real, capacity: real, shards: nat) {
    && shards >= 1 && Hold(shards, capacity, local)
    && forall fewer: nat | 1 <= fewer < shards :: !Hold(fewer, capacity, local)
  }

  lemma {:induction false} FillsIff(local: real, capacity: real, n: nat)
    requires capacity > 0.0
    ensures Hold(n, capacity, local) <==> Ceil(local / capacity) <= n
  {
    var q, r := local / capacity, n as real;
    assert q * capacity == local;
    assert (r - q) * capacity == r * capacity - local;
    if q <= r {
      Times(r - q, capacity);
    } else {
      Positive(q - r, capacity);
      assert (q - r) * capacity == local - r * capacity;
    }
  }

  lemma {:induction false} Positive(a: real, b: real)
    requires a > 0.0 && b > 0.0
    ensures a * b > 0.0
  {}

  lemma {:induction false} ShardsAreFewest(local: real, capacity: real)
    requires capacity > 0.0
    ensures IsFewest(local, capacity, Shards(local, capacity))
  {
    var n := Shards(local, capacity);
    FillsIff(local, capacity, n);
    forall fewer: nat | 1 <= fewer < n ensures !Hold(fewer, capacity, local) {
      FillsIff(local, capacity, fewer);
    }
  }

  // ----- The walk -----

  datatype YearLine = YearLine(year: nat, stored: real, cold: real, shards: nat, nodes: nat, kafkaBroker: real)

  function Nodes(shards: nat, replicas: nat): nat {
    shards * replicas
  }

  function PerBroker(m: Model, held: real): real
    requires m.kafkaBrokers > 0
  {
    held * m.kafkaReplication as real / m.kafkaBrokers as real
  }

  /** The store at the end of a year: what is held, how much of it is cold, and the shards for the rest. */
  ghost predicate IsYear(m: Model, window: nat, year: nat, y: YearLine)
    requires m.kafkaBrokers > 0
  {
    year > 0 &&
    var day := year * DAYS_PER_YEAR - 1;
    var held := Min(day + 1, window);
    var hotDays := match m.coldAfter case Some(after) => Min(after, held) case None => held;
    var hot := m.Volume(day + 1 - hotDays, day + 1);
    && y.year == year && y.stored == m.Stored(window, day)
    && y.cold == m.Volume(day + 1 - held, day + 1 - hotDays) && y.stored == hot + y.cold
    && IsFewest(if m.coldAfter.Some? then hot else y.stored, m.shardCapacity, y.shards)
    && y.nodes == Nodes(y.shards, m.replicas) && y.kafkaBroker == PerBroker(m, m.KafkaHeld(day))
  }

  /** The first day, counted from one, on which something passes a ceiling. */
  ghost predicate IsFirstFull(held: nat -> real, ceiling: real, days: nat, first: Option<nat>) {
    match first
    case Some(l) => 1 <= l <= days && held(l - 1) > ceiling && forall d: nat | d < l - 1 :: held(d) <= ceiling
    case None => forall d: nat | d < days :: held(d) <= ceiling
  }

  lemma {:induction false} FirstFullNext(held: nat -> real, ceiling: real, days: nat, first: Option<nat>)
    requires IsFirstFull(held, ceiling, days, first)
    ensures IsFirstFull(held, ceiling, days + 1,
                        if first.None? && held(days) > ceiling then Some(days + 1) else first)
  {}

  ghost function StoredBy(m: Model, window: nat): nat -> real {
    (day: nat) => m.Stored(window, day)
  }

  ghost function KafkaBy(m: Model): nat -> real {
    (day: nat) => m.KafkaHeld(day)
  }

  /** The last volumes of a history, added up. */
  method SumLast(m: Model, history: seq<real>, n: nat) returns (sum: real)
    requires n <= |history| && forall i | 0 <= i < |history| :: history[i] == m.Today(i)
    ensures sum == m.Volume(|history| - n, |history|)
  {
    sum := 0.0;
    for i := |history| - n to |history|
      invariant sum == m.Volume(|history| - n, i)
    {
      sum := sum + history[i];
    }
  }

  method EndOfYear(m: Model, window: nat, history: seq<real>, stored: real, kafkaHeld: real) returns (y: YearLine)
    requires m.Valid() && history != [] && |history| % DAYS_PER_YEAR == 0
    requires forall i | 0 <= i < |history| :: history[i] == m.Today(i)
    requires stored == m.Stored(window, |history| - 1) && kafkaHeld == m.KafkaHeld(|history| - 1)
    ensures IsYear(m, window, |history| / DAYS_PER_YEAR, y)
  {
    var day := |history| - 1;
    var held := Min(|history|, window);
    var hotDays := match m.coldAfter case Some(after) => Min(after, held) case None => held;
    var hot := SumLast(m, history, hotDays);
    VolumeSplits(m, |history| - held, |history| - hotDays, |history|);
    VolumeNonneg(m, |history| - held, |history| - hotDays);
    var cold := if stored - hot > 0.0 then stored - hot else 0.0;
    var local := if m.coldAfter.Some? then hot else stored;
    var shards := Shards(local, m.shardCapacity);
    ShardsAreFewest(local, m.shardCapacity);
    assert (|history| / DAYS_PER_YEAR) * DAYS_PER_YEAR == |history|;
    y := YearLine(|history| / DAYS_PER_YEAR, stored, cold, shards, Nodes(shards, m.replicas), PerBroker(m, kafkaHeld));
  }

  /** Walk the horizon: every year's line, and the first days the deployed volumes are full. */
  method Walk(m: Model, window: nat) returns (years: seq<YearLine>, storeFull: Option<nat>, kafkaFull: Option<nat>)
    requires m.Valid()
    ensures |years| == m.horizonYears && forall i | 0 <= i < |years| :: IsYear(m, window, i + 1, years[i])
    ensures IsFirstFull(StoredBy(m, window), m.storeCeiling, m.Horizon(), storeFull)
    ensures IsFirstFull(KafkaBy(m), m.kafkaCeiling, m.Horizon(), kafkaFull)
  {
    var history: seq<real>, stored := [], 0.0;
    years, storeFull, kafkaFull := [], None, None;
    for day := 0 to m.Horizon()
      invariant |history| == day && forall i | 0 <= i < day :: history[i] == m.Today(i)
      invariant stored == if day == 0 then 0.0 else m.Stored(window, day - 1)
      invariant |years| == day / DAYS_PER_YEAR && forall i | 0 <= i < |years| :: IsYear(m, window, i + 1, years[i])
      invariant IsFirstFull(StoredBy(m, window), m.storeCeiling, day, storeFull)
      invariant IsFirstFull(KafkaBy(m), m.kafkaCeiling, day, kafkaFull)
    {
      var today := m.Today(day);
      WindowSlides(m, window, day, stored);
      history := history + [today];
      stored := stored + today;
      if |history| > window {
        stored := stored - history[|history| - 1 - window];
      }
      FirstFullNext(StoredBy(m, window), m.storeCeiling, day, storeFull);
      if storeFull.None? && stored > m.storeCeiling {
        storeFull := Some(day + 1);
      }
      var kafkaHeld := m.KafkaHeld(day);
      FirstFullNext(KafkaBy(m), m.kafkaCeiling, day, kafkaFull);
      if kafkaFull.None? && kafkaHeld > m.kafkaCeiling {
        kafkaFull := Some(day + 1);
      }
      if (day + 1) % DAYS_PER_YEAR == 0 {
        var y := EndOfYear(m, window, history, stored, kafkaHeld);
        years := years + [y];
      }
    }
  }
}
