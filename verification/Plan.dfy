/**
 Partitions held under a partition key, and the searches over days and windows that the
 plan of a table rests on. The exponential is a parameter known only by its sign and bound.
 */
module Plan {
  import opened Common
  import opened Timeline

  // ----- Partition keys -----

  datatype Component = Chain | EventType | Day | Month

  type Key = seq<Component>

  datatype KeyContext = KeyContext(chains: real, eventTypes: real, pairRates: seq<real>, typeRates: seq<real>, growth: real) {
    predicate Valid() {
      && chains >= 0.0 && eventTypes >= 0.0 && growth >= 0.0
      && (forall i | 0 <= i < |pairRates| :: pairRates[i] >= 0.0)
      && (forall i | 0 <= i < |typeRates| :: typeRates[i] >= 0.0)
    }
  }

  /** `exp` is positive and at most one left of zero. */
  ghost predicate IsExp(exp: real -> real) {
    forall x: real :: x <= 0.0 ==> 0.0 < exp(x) <= 1.0
  }

  const DAYS_PER_MONTH: real := 30.436875

  /** The share of pairs that occupy a day's partition, added up. */
  function Occupied(exp: real -> real, rates: seq<real>, growth: real): real {
    if rates == [] then 0.0
    else Occupied(exp, rates[..|rates| - 1], growth) + (1.0 - exp(-rates[|rates| - 1] * growth))
  }

  /**
   What a key multiplies by whatever the days held: chains and types or, for a key of type and
   day, the share of pairs with an event that day.
   */
  function Multiplier(exp: real -> real, key: Key, ctx: KeyContext): real {
    var chains := if Chain in key then ctx.chains else 1.0;
    if EventType in key && Day in key then
      var rates := if Chain in key then ctx.pairRates else ctx.typeRates;
      if rates == [] then chains * ctx.eventTypes else Occupied(exp, rates, ctx.growth)
    else
      chains * if EventType in key then ctx.eventTypes else 1.0
  }

  /** The time component: days, months begun, or none. */
  function Span(key: Key, days: real): real {
    if Day in key then days else if Month in key then MaxReal(Ceil(days / DAYS_PER_MONTH) as real, 1.0) else 1.0
  }

  /** Partitions held after `daysHeld` days of rows. */
  function Count(exp: real -> real, key: Key, daysHeld: real, ctx: KeyContext): real {
    if daysHeld <= 0.0 then 0.0 else Product(Multiplier(exp, key, ctx), Span(key, MaxReal(daysHeld, 1.0)))
  }

  function ExpiryLagDays(key: Key): nat {
    if Month in key then 31 else if Day in key then 1 else 0
  }

  lemma {:induction false} OccupiedNonneg(exp: real -> real, rates: seq<real>, growth: real)
    requires IsExp(exp) && growth >= 0.0 && forall i | 0 <= i < |rates| :: rates[i] >= 0.0
    ensures 0.0 <= Occupied(exp, rates, growth) <= |rates| as real
    decreases |rates|
  {
    if rates != [] {
      OccupiedNonneg(exp, rates[..|rates| - 1], growth);
      Times(rates[|rates| - 1], growth);
      var x := -rates[|rates| - 1] * growth;
      assert x == -(rates[|rates| - 1] * growth);
      assert 0.0 < exp(x) <= 1.0;
    }
  }

  lemma {:induction false} TimesMonotone(a: real, x: real, y: real)
    requires a >= 0.0 && x <= y
    ensures a * x <= a * y
  {
    Times(a, y - x);
    assert a * (y - x) == a * y - a * x;
  }

  lemma {:induction false} MultiplierNonneg(exp: real -> real, key: Key, ctx: KeyContext)
    requires IsExp(exp) && ctx.Valid()
    ensures Multiplier(exp, key, ctx) >= 0.0
  {
    OccupiedNonneg(exp, ctx.pairRates, ctx.growth);
    OccupiedNonneg(exp, ctx.typeRates, ctx.growth);
    Times(ctx.chains, ctx.eventTypes);
  }

  lemma {:induction false} SpanGrows(key: Key, a: real, b: real)
    requires 1.0 <= a <= b
    ensures 1.0 <= Span(key, a) <= Span(key, b)
  {
    assert a / DAYS_PER_MONTH <= b / DAYS_PER_MONTH;
  }

  /** More days held never means fewer partitions. */
  lemma {:induction false} CountGrows(exp: real -> real, key: Key, a: real, b: real, ctx: KeyContext)
    requires IsExp(exp) && ctx.Valid() && a <= b
    ensures 0.0 <= Count(exp, key, a, ctx) <= Count(exp, key, b, ctx)
  {
    var x, y, m := MaxReal(a, 1.0), MaxReal(b, 1.0), Multiplier(exp, key, ctx);
    MultiplierNonneg(exp, key, ctx);
    SpanGrows(key, x, y);
    ProductsGrow(m, Span(key, x), Span(key, y));
  }

  lemma {:induction false} ProductsGrow(m: real, s: real, t: real)
    requires m >= 0.0 && 1.0 <= s <= t
    ensures 0.0 <= Product(m, s) <= Product(m, t)
  {
    Times(m, s);
    TimesMonotone(m, s, t);
  }

  // ----- The searches -----

  datatype Window = Days(days: nat) | Unbounded

  const FARTHEST_DAY: nat := 36_500

  /** A table under the model: its key, and the limits the store sets. */
  datatype Table = Table(key: Key, window: Window, maxParts: real, maxPerBlock: real, horizon: nat, dailyGrowth: real,
                         chains: real, eventTypes: real, pairRates: seq<real>, typeRates: seq<real>)
  {
    predicate Valid() {
      && dailyGrowth > 0.0 && chains >= 0.0 && eventTypes >= 0.0
      && (forall i | 0 <= i < |pairRates| :: pairRates[i] >= 0.0)
      && (forall i | 0 <= i < |typeRates| :: typeRates[i] >= 0.0)
    }

    function At(day: nat): KeyContext {
      KeyContext(chains, eventTypes, pairRates, typeRates, Power(dailyGrowth, day))
    }

    /** The days of rows held at the end of a day. */
    function Held(day: nat): real {
      match window
      case Days(w) => Min(day + 1, w) as real
      case Unbounded => (day + 1) as real
    }

    function Last(): nat {
      if horizon == 0 then 0 else horizon - 1
    }

    function Partitions(exp: real -> real, day: nat): real {
      Count(exp, key, Held(day), At(day))
    }

    /** Partitions of `days` days of rows, at the growth of the horizon's last day. */
    function PartitionsOf(exp: real -> real, days: nat): real {
      Count(exp, key, days as real, At(Last()))
    }
  }

  /** The first day below `days`, counted from one, on which something happens. */
  ghost predicate IsFirstDay(happens: nat -> bool, days: nat, day: Option<nat>) {
    match day
    case Some(l) => 1 <= l <= days && happens(l - 1) && forall d: nat | d < l - 1 :: !happens(d)
    case None => forall d: nat | d < days :: !happens(d)
  }

  ghost function PartsFull(exp: real -> real, t: Table): nat -> bool {
    (day: nat) => t.Partitions(exp, day) >= t.maxParts
  }

  ghost function BlockFull(exp: real -> real, t: Table): nat -> bool {
    (day: nat) => t.Partitions(exp, day) > t.maxPerBlock
  }

  /** The horizon's days and, beyond it, an unbounded table's at the growth of the last day. */
  ghost function BlockFullBeyond(exp: real -> real, t: Table): nat -> bool {
    (day: nat) => if day < t.horizon then t.Partitions(exp, day) > t.maxPerBlock
                  else t.PartitionsOf(exp, day + 1) > t.maxPerBlock
  }

  lemma {:induction false} FirstDayNext(happens: nat -> bool, days: nat, first: Option<nat>)
    requires IsFirstDay(happens, days, first)
    ensures IsFirstDay(happens, days + 1, if first.None? && happens(days) then Some(days + 1) else first)
  {}

  lemma {:induction false} StillFirst(happens: nat -> bool, days: nat, more: nat, day: Option<nat>)
    requires IsFirstDay(happens, days, day) && day.Some? && days <= more
    ensures IsFirstDay(happens, more, day)
  {}

  /** The first days within the horizon on which each limit is passed. */
  method FindLimitDays(exp: real -> real, t: Table) returns (parts: Option<nat>, block: Option<nat>)
    ensures IsFirstDay(PartsFull(exp, t), t.horizon, parts)
    ensures IsFirstDay(BlockFull(exp, t), t.horizon, block)
  {
    parts, block := None, None;
    for day := 0 to t.horizon
      invariant IsFirstDay(PartsFull(exp, t), day, parts)
      invariant IsFirstDay(BlockFull(exp, t), day, block)
    {
      FirstDayNext(PartsFull(exp, t), day, parts);
      FirstDayNext(BlockFull(exp, t), day, block);
      var partitions := t.Partitions(exp, day);
      if parts.None? && partitions >= t.maxParts {
        parts := Some(day + 1);
      }
      if block.None? && partitions > t.maxPerBlock {
        block := Some(day + 1);
      }
      if parts.Some? && block.Some? {
        StillFirst(PartsFull(exp, t), day + 1, t.horizon, parts);
        StillFirst(BlockFull(exp, t), day + 1, t.horizon, block);
        return;
      }
    }
  }

  /** A table with no retention is searched past the horizon too. */
  method FindBeyond(exp: real -> real, t: Table) returns (block: Option<nat>)
    requires forall d: nat | d < t.horizon :: !BlockFull(exp, t)(d)
    ensures IsFirstDay(BlockFullBeyond(exp, t), if t.horizon < FARTHEST_DAY then FARTHEST_DAY else t.horizon, block)
  {
    var day := t.horizon;
    forall d: nat | d < t.horizon ensures !BlockFullBeyond(exp, t)(d) {
      assert !BlockFull(exp, t)(d);
    }
    while day < FARTHEST_DAY
      invariant t.horizon <= day && (day <= FARTHEST_DAY || day == t.horizon)
      invariant forall d: nat | d < day :: !BlockFullBeyond(exp, t)(d)
    {
      if t.PartitionsOf(exp, day + 1) > t.maxPerBlock {
        return Some(day + 1);
      }
      day := day + 1;
    }
    return None;
  }

  /** A window fits when a restore of all of it fits in one insert block. */
  predicate Fits(exp: real -> real, t: Table, days: nat) {
    t.PartitionsOf(exp, days) <= t.maxPerBlock
  }

  /** The widest window that fits, up to a hundred years: it and every narrower one fit, none wider does. */
  ghost predicate IsWidest(exp: real -> real, t: Table, widest: Option<nat>) {
    && (widest.Some? ==> 1 <= widest.value <= FARTHEST_DAY)
    && forall days: nat | 1 <= days <= FARTHEST_DAY :: Fits(exp, t, days) <==> widest.Some? && days <= widest.value
  }

  method WidestWindow(exp: real -> real, t: Table) returns (widest: Option<nat>)
    requires IsExp(exp) && t.Valid()
    ensures IsWidest(exp, t, widest)
  {
    widest := None;
    var days := 1;
    while days <= FARTHEST_DAY && Fits(exp, t, days)
      invariant 1 <= days <= FARTHEST_DAY + 1
      invariant widest == if days == 1 then None else Some(days - 1)
      invariant forall d: nat | 1 <= d < days :: Fits(exp, t, d)
    {
      widest := Some(days);
      days := days + 1;
    }
    forall d: nat | days <= d <= FARTHEST_DAY ensures !Fits(exp, t, d) {
      FitsLess(exp, t, days, d);
    }
  }

  /** What fits, fits in a narrower window as well. */
  lemma {:induction false} FitsLess(exp: real -> real, t: Table, narrow: nat, wide: nat)
    requires IsExp(exp) && t.Valid() && narrow <= wide
    ensures Fits(exp, t, wide) ==> Fits(exp, t, narrow)
  {
    PowerPositive(t.dailyGrowth, t.Last());
    CountGrows(exp, t.key, narrow as real, wide as real, t.At(t.Last()));
  }

  datatype TablePlan = TablePlan(
    atHorizon: real, atFullWindow: real, partsLimitDay: Option<nat>, blockLimitDay: Option<nat>, maxWindow: Option<nat>)

  /** The window left for evidence once the key's expiry lag is taken off. */
  function LessLag(widest: Option<nat>, lag: nat): Option<nat> {
    match widest
    case Some(w) => Some(if w < lag then 0 else w - lag)
    case None => None
  }

  method PlanTable(exp: real -> real, t: Table) returns (p: TablePlan, ghost widest: Option<nat>)
    requires IsExp(exp) && t.Valid()
    ensures IsFirstDay(PartsFull(exp, t), t.horizon, p.partsLimitDay)
    ensures t.window.Days? ==> IsFirstDay(BlockFull(exp, t), t.horizon, p.blockLimitDay)
    ensures t.window.Unbounded? ==>
              IsFirstDay(BlockFullBeyond(exp, t), if t.horizon < FARTHEST_DAY then FARTHEST_DAY else t.horizon, p.blockLimitDay)
    ensures IsWidest(exp, t, widest) && p.maxWindow == LessLag(widest, ExpiryLagDays(t.key))
    ensures p.atHorizon <= p.atFullWindow
  {
    var parts, block := FindLimitDays(exp, t);
    if t.window.Unbounded? && block.None? {
      block := FindBeyond(exp, t);
    } else if t.window.Unbounded? {
      assert forall d: nat | d < t.horizon :: BlockFullBeyond(exp, t)(d) == BlockFull(exp, t)(d);
      StillFirst(BlockFullBeyond(exp, t), t.horizon, if t.horizon < FARTHEST_DAY then FARTHEST_DAY else t.horizon, block);
    }
    var atHorizon := t.Partitions(exp, t.Last());
    var full := match t.window case Days(w) => w case Unbounded => t.horizon;
    var atFull := MaxReal(t.PartitionsOf(exp, full), atHorizon);
    var w := WidestWindow(exp, t);
    widest := w;
    p := TablePlan(atHorizon, atFull, parts, block, LessLag(w, ExpiryLagDays(t.key)));
  }
}
