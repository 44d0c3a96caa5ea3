/**
 The snapshot heartbeat as a timed state machine, in whole seconds: what a beat starts, how
 cycles commit artifacts and finish, and how old the newest artifact of a target can get.
 */
module Scheduler {
  import opened Common

  type Target = string

  /** `cadence` between snapshots, beats at most `beat` apart, cycles done within `cycle`. */
  datatype Config = Config(targets: set<Target>, cadence: nat, beat: nat, cycle: nat)

  /** One snapshot pass: when it started, the targets it is for, and those already committed. */
  datatype Cycle = Cycle(start: nat, due: set<Target>, done: set<Target>)

  /**
   `newest` is the cut of each target's newest complete artifact, `inFlight` every task that
   was spawned and has not finished, `slot` the task the agent remembers.
   */
  datatype State = State(
    now: nat, lastBeat: nat, newest: map<Target, nat>, inFlight: map<nat, Cycle>, slot: Option<nat>, nextTask: nat)
  {
    predicate IsRunning() {
      slot.Some? && slot.value in inFlight
    }

    /** Age of the data, from its cut; a cut in the future is no age at all. */
    function Age(t: Target): nat
      requires t in newest
    {
      if now < newest[t] then 0 else now - newest[t]
    }

    predicate IsDue(c: Config, t: Target) {
      t in newest ==> Age(t) >= c.cadence
    }

    function At(t: nat): State {
      this.(now := t)
    }
  }

  /** The targets a beat finds due; one whose store cannot be read is attempted. */
  function Due(c: Config, s: State, unreadable: set<Target>): set<Target> {
    set t | t in c.targets && (t in unreadable || s.IsDue(c, t))
  }

  function Beat(c: Config, s: State, unreadable: set<Target>): State {
    var beaten := s.(lastBeat := s.now);
    var due := Due(c, s, unreadable);
    if s.IsRunning() || due == {} then beaten
    else beaten.(inFlight := s.inFlight[s.nextTask := Cycle(s.now, due, {})],
                 slot := Some(s.nextTask), nextTask := s.nextTask + 1)
  }

  lemma {:induction false} DueIgnoresTheLastBeat(c: Config, s: State, at: nat, unreadable: set<Target>)
    ensures Due(c, s.(lastBeat := at), unreadable) == Due(c, s, unreadable)
  {
    forall t: Target ensures t in Due(c, s.(lastBeat := at), unreadable) <==> t in Due(c, s, unreadable) {
      assert s.(lastBeat := at).IsDue(c, t) == s.IsDue(c, t);
    }
  }

  // ----- The agent -----

  class JobSlot {
    var handle: Option<nat>

    constructor ()
      ensures handle == None
    {
      handle := None;
    }

    /** Whether the remembered task has not finished. */
    method IsRunning(unfinished: set<nat>) returns (r: bool)
      ensures r <==> handle.Some? && handle.value in unfinished
    {
      r := handle.Some? && handle.value in unfinished;
    }

    method Start(task: nat)
      modifies this
      ensures handle == Some(task)
    {
      handle := Some(task);
    }
  }

  class Agent {
    const config: Config
    const snapshots: JobSlot
    var now: nat
    var lastBeat: nat
    var newest: map<Target, nat>
    var inFlight: map<nat, Cycle>
    var nextTask: nat

    ghost function View(): State
      reads this, snapshots
    {
      State(now, lastBeat, newest, inFlight, snapshots.handle, nextTask)
    }

    constructor (config: Config, newest: map<Target, nat>, now: nat)
      ensures this.config == config && fresh(snapshots)
      ensures View() == State(now, now, newest, map[], None, 0)
    {
      this.config, this.newest, this.now, lastBeat := config, newest, now, now;
      inFlight, nextTask := map[], 0;
      snapshots := new JobSlot();
    }

    /** What is due, target by target. */
    method FindDue(unreadable: set<Target>) returns (due: set<Target>)
      ensures due == Due(config, View(), unreadable)
    {
      due := {};
      var left := config.targets;
      while left != {}
        invariant left <= config.targets
        invariant forall t <- due :: t in config.targets && t !in left
        invariant forall t <- config.targets :: t in left || (t in due <==> t in unreadable || View().IsDue(config, t))
        decreases |left|
      {
        var t :| t in left;
        left := left - {t};
        var isDue := true;
        if t !in unreadable && t in newest {
          isDue := (if now < newest[t] then 0 else now - newest[t]) >= config.cadence;
        }
        if isDue {
          due := due + {t};
        }
      }
    }

    /** One heartbeat: start a cycle for what is due, unless one is still in flight. */
    method Heartbeat(unreadable: set<Target>)
      modifies this, snapshots
      ensures View() == Beat(config, old(View()), unreadable)
    {
      lastBeat := now;
      var running := snapshots.IsRunning(inFlight.Keys);
      if !running {
        var due := FindDue(unreadable);
        DueIgnoresTheLastBeat(config, old(View()), now, unreadable);
        if due != {} {
          inFlight := inFlight[nextTask := Cycle(now, due, {})];
          snapshots.Start(nextTask);
          nextTask := nextTask + 1;
        }
      }
    }
  }

  // ----- Runs -----

  /** What happens next, and when. A restart is of an agent with nothing in flight. */
  datatype Event = Beats(at: nat, unreadable: set<Target>)
                 | Commits(at: nat, task: nat, target: Target, cut: nat)
                 | Finishes(at: nat, task: nat)
                 | Restarts(at: nat)
                 | Passes(at: nat)

  /**
   Time goes on, a beat is never later than `beat` after the last one, every cycle is done
   within `cycle` of its start, and it is done once it committed what it was started for.
   */
  predicate CanHappen(c: Config, s: State, e: Event) {
    && s.now <= e.at <= s.lastBeat + c.beat
    && (forall k <- s.inFlight :: e.at <= s.inFlight[k].start + c.cycle)
    && match e
       case Commits(at, task, target, cut) =>
         && task in s.inFlight && target in s.inFlight[task].due && target !in s.inFlight[task].done
         && s.inFlight[task].start <= cut <= at
       case Finishes(_, task) => task in s.inFlight && s.inFlight[task].done == s.inFlight[task].due
       case Restarts(_) => s.inFlight == map[]
       case _ => true
  }

  function Apply(c: Config, s: State, e: Event): State {
    match e
    case Beats(at, unreadable) => Beat(c, s.At(at), unreadable)
    case Commits(at, task, target, cut) =>
      if task !in s.inFlight then s.At(at) else
      var cycle := s.inFlight[task];
      s.At(at).(newest := s.newest[target := if target in s.newest && cut < s.newest[target] then s.newest[target] else cut],
                inFlight := s.inFlight[task := cycle.(done := cycle.done + {target})])
    case Finishes(at, task) => s.At(at).(inFlight := s.inFlight - {task})
    case Restarts(at) => s.At(at).(slot := None)
    case Passes(at) => s.At(at)
  }

  ghost predicate IsRun(c: Config, s: State, run: seq<Event>)
    decreases |run|
  {
    run == [] || (CanHappen(c, s, run[0]) && IsRun(c, Apply(c, s, run[0]), run[1..]))
  }

  function After(c: Config, s: State, run: seq<Event>): State
    decreases |run|
  {
    if run == [] then s else After(c, Apply(c, s, run[0]), run[1..])
  }

  // ----- What every run keeps -----

  /** At most one cycle is in flight, and it is the one the slot remembers. */
  ghost predicate AtMostOne(s: State) {
    && (forall k <- s.inFlight :: s.slot == Some(k))
    && (s.slot.Some? ==> s.slot.value < s.nextTask)
  }

  /** How far a target's newest cut can lie behind, by whether a cycle is running for it. */
  ghost predicate OnTime(c: Config, s: State, t: Target) {
    t in s.newest ==>
      var cut := s.newest[t];
      && cut <= s.now
      && (s.inFlight == map[] ==> s.lastBeat < cut + c.cadence + c.cycle)
      && (forall k <- s.inFlight ::
            var cycle := s.inFlight[k];
            if t in cycle.due && t !in cycle.done then cycle.start < cut + c.cadence + c.cycle + c.beat
            else cycle.start < cut + c.cadence)
  }

  ghost predicate Timely(c: Config, s: State) {
    && s.lastBeat <= s.now <= s.lastBeat + c.beat
    && (forall k <- s.inFlight :: s.inFlight[k].start <= s.now <= s.inFlight[k].start + c.cycle)
    && (forall k <- s.inFlight :: s.inFlight[k].done <= s.inFlight[k].due)
  }

  ghost predicate Inv(c: Config, s: State) {
    AtMostOne(s) && Timely(c, s) && forall t <- c.targets :: OnTime(c, s, t)
  }

  lemma {:induction false} KeepsOne(c: Config, s: State, e: Event)
    requires AtMostOne(s) && CanHappen(c, s, e)
    ensures AtMostOne(Apply(c, s, e))
  {}

  lemma {:induction false} KeepsTimely(c: Config, s: State, e: Event)
    requires AtMostOne(s) && Timely(c, s) && CanHappen(c, s, e)
    ensures Timely(c, Apply(c, s, e))
  {}

  lemma {:induction false} KeepsOnTime(c: Config, s: State, e: Event, t: Target)
    requires c.cadence > 0 && AtMostOne(s) && Timely(c, s) && OnTime(c, s, t) && CanHappen(c, s, e) && t in c.targets
    ensures OnTime(c, Apply(c, s, e), t)
  {
    match e
    case Beats(at, unreadable) => BeatKeepsOnTime(c, s, at, unreadable, t);
    case Finishes(at, task) => assert (s.inFlight - {task}) == map[];
    case _ =>
  }

  lemma {:induction false} BeatKeepsOnTime(c: Config, s: State, at: nat, unreadable: set<Target>, t: Target)
    requires c.cadence > 0 && AtMostOne(s) && Timely(c, s) && OnTime(c, s, t) && t in c.targets
    requires CanHappen(c, s, Beats(at, unreadable))
    ensures OnTime(c, Beat(c, s.At(at), unreadable), t)
  {
    if !s.IsRunning() {
      assert forall k :: k !in s.inFlight;
      assert s.inFlight == map[];
      assert t !in Due(c, s.At(at), unreadable) && t in s.newest ==> at < s.newest[t] + c.cadence;
    }
  }

  lemma {:induction false} RunKeepsInv(c: Config, s: State, run: seq<Event>)
    requires c.cadence > 0 && Inv(c, s) && IsRun(c, s, run)
    ensures Inv(c, After(c, s, run))
    decreases |run|
  {
    if run != [] {
      var e := run[0];
      KeepsOne(c, s, e);
      KeepsTimely(c, s, e);
      forall t <- c.targets ensures OnTime(c, Apply(c, s, e), t) { KeepsOnTime(c, s, e, t); }
      RunKeepsInv(c, Apply(c, s, e), run[1..]);
    }
  }

  /** However a run goes, one cycle at most is in flight, and an artifact never gets older than this. */
  lemma {:induction false} ArtifactsStayFresh(c: Config, s: State, run: seq<Event>)
    requires c.cadence > 0 && Inv(c, s) && IsRun(c, s, run)
    ensures var end := After(c, s, run);
            && |end.inFlight| <= 1
            && forall t <- c.targets :: t in end.newest ==> end.Age(t) < c.cadence + c.beat + 2 * c.cycle
  {
    RunKeepsInv(c, s, run);
    var end := After(c, s, run);
    AtMostOneIsOne(end);
    forall t | t in c.targets && t in end.newest ensures end.Age(t) < c.cadence + c.beat + 2 * c.cycle {
      assert OnTime(c, end, t);
      if k :| k in end.inFlight {
        assert end.now <= end.inFlight[k].start + c.cycle;
      } else {
        assert end.inFlight == map[];
      }
    }
  }

  lemma {:induction false} AtMostOneIsOne(s: State)
    requires AtMostOne(s)
    ensures |s.inFlight| <= 1
  {
    if k :| k in s.inFlight {
      assert s.inFlight.Keys == {k};
      assert |s.inFlight| == |s.inFlight.Keys|;
    }
  }

  /** An agent booted over an empty store. */
  function Boot(now: nat): State {
    State(now, now, map[], map[], None, 0)
  }

  /** From boot on: every run keeps one cycle in flight at most and every artifact fresh. */
  lemma {:induction false} FreshFromBoot(c: Config, now: nat, run: seq<Event>)
    requires c.cadence > 0 && IsRun(c, Boot(now), run)
    ensures var end := After(c, Boot(now), run);
            && |end.inFlight| <= 1
            && forall t <- c.targets :: t in end.newest ==> end.Age(t) < c.cadence + c.beat + 2 * c.cycle
  {
    ArtifactsStayFresh(c, Boot(now), run);
  }

  lemma {:induction false} OneMore(c: Config, s: State, run: seq<Event>, e: Event)
    requires IsRun(c, s, run) && CanHappen(c, After(c, s, run), e)
    ensures IsRun(c, s, run + [e]) && After(c, s, run + [e]) == Apply(c, After(c, s, run), e)
    decreases |run|
  {
    if run == [] {
      assert run + [e] == [e] && [e][1..] == [];
    } else {
      assert (run + [e])[1..] == run[1..] + [e];
      OneMore(c, Apply(c, s, run[0]), run[1..], e);
    }
  }

  /** A run so far, and where it led. */
  ghost predicate LeadsTo(c: Config, from: State, run: seq<Event>, s: State) {
    IsRun(c, from, run) && After(c, from, run) == s
  }

  lemma {:induction false} GoOn(c: Config, from: State, run: seq<Event>, s: State, e: Event)
    requires LeadsTo(c, from, run, s) && CanHappen(c, s, e)
    ensures LeadsTo(c, from, run + [e], Apply(c, s, e))
  {
    OneMore(c, from, run, e);
  }

  /** A beat every second, none of which starts anything because a cycle is in flight. */
  lemma {:induction false} BeatsOn(c: Config, from: State, run: seq<Event>, s: State, until: nat)
    returns (longer: seq<Event>)
    requires LeadsTo(c, from, run, s) && s.IsRunning() && c.beat > 0 && s.now == s.lastBeat <= until
    requires forall k <- s.inFlight :: until <= s.inFlight[k].start + c.cycle
    ensures LeadsTo(c, from, longer, s.(now := until, lastBeat := until))
    decreases until - s.now
  {
    if s.now == until {
      longer := run;
    } else {
      var e := Beats(s.now + 1, {});
      GoOn(c, from, run, s, e);
      longer := BeatsOn(c, from, run + [e], s.(now := s.now + 1, lastBeat := s.now + 1), until);
    }
  }

  /** `b` was cut a second before `a`, and falls due now. */
  ghost function BFallsDue(c: Config, a: Target, b: Target): State
    requires c.cadence > 0
  {
    State(c.cadence, c.cadence - 1, map[b := 0, a := 1], map[], None, 0)
  }

  /** The cycle of `b` takes as long as it may, and a beat comes just before it is finished. */
  lemma {:induction false} WaitsForTheOther(c: Config, a: Target, b: Target) returns (run: seq<Event>)
    requires a != b && c.targets == {a, b} && c.cadence > 0 && c.beat > 0
    ensures var done := c.cadence + c.cycle;
            LeadsTo(c, BFallsDue(c, a, b), run, State(done, done, map[b := done, a := 1], map[], Some(0), 1))
  {
    var s0 := BFallsDue(c, a, b);
    var done := c.cadence + c.cycle;
    var beat := Beats(c.cadence, {});
    assert LeadsTo(c, s0, [], s0);
    assert Due(c, s0.At(c.cadence), {}) == {b};
    var s1 := State(c.cadence, c.cadence, map[b := 0, a := 1], map[0 := Cycle(c.cadence, {b}, {})], Some(0), 1);
    GoOn(c, s0, [], s0, beat);
    assert Apply(c, s0, beat) == s1;
    run := BeatsOn(c, s0, [] + [beat], s1, done);
    var s2 := s1.(now := done, lastBeat := done);
    run := CommitsAndFinishes(c, s0, run, s2, b);
    assert s2.newest[b := done] == map[b := done, a := 1];
  }

  lemma {:induction false} CommitsAndFinishes(c: Config, from: State, run: seq<Event>, s: State, b: Target)
    returns (longer: seq<Event>)
    requires LeadsTo(c, from, run, s) && s.inFlight == map[0 := Cycle(c.cadence, {b}, {})] && b in s.newest
    requires s.now == s.lastBeat == c.cadence + c.cycle && s.newest[b] <= s.now
    ensures LeadsTo(c, from, longer, s.(newest := s.newest[b := s.now], inFlight := map[]))
  {
    var commit, finish := Commits(s.now, 0, b, s.now), Finishes(s.now, 0);
    GoOn(c, from, run, s, commit);
    var committed := s.(newest := s.newest[b := s.now], inFlight := map[0 := Cycle(c.cadence, {b}, {b})]);
    assert {} + {b} == {b};
    assert s.inFlight[0 := Cycle(c.cadence, {b}, {b})] == committed.inFlight;
    assert Apply(c, s, commit) == committed;
    GoOn(c, from, run + [commit], committed, finish);
    assert committed.inFlight - {0} == map[];
    longer := run + [commit] + [finish];
  }

  /**
   For no cadence, beat or cycle can the bound be lowered: `a` falls due a second after `b`,
   so it waits for the cycle of `b`, then for a beat, and then for its own cycle.
   */
  lemma {:induction false} BoundIsReached(c: Config, a: Target, b: Target)
    returns (s: State, run: seq<Event>, end: State)
    requires a != b && c.targets == {a, b} && c.cadence > 0 && c.beat > 0
    ensures Inv(c, s) && LeadsTo(c, s, run, end)
    ensures a in end.newest && end.Age(a) == c.cadence + c.beat + 2 * c.cycle - 1
  {
    s := BFallsDue(c, a, b);
    run := WaitsForTheOther(c, a, b);
    var done := c.cadence + c.cycle;
    var idle := State(done, done, map[b := done, a := 1], map[], Some(0), 1);
    var beat := Beats(done + c.beat, {});
    var due := Due(c, idle.At(done + c.beat), {});
    assert idle.At(done + c.beat).IsDue(c, a);
    assert a in due;
    GoOn(c, s, run, idle, beat);
    var own := State(done + c.beat, done + c.beat, idle.newest, map[1 := Cycle(done + c.beat, due, {})], Some(1), 2);
    assert Apply(c, idle, beat) == own;
    run := BeatsOn(c, s, run + [beat], own, done + c.beat + c.cycle);
    end := own.(now := done + c.beat + c.cycle, lastBeat := done + c.beat + c.cycle);
  }
}
