/**
 The schema-migration runner: apply what is not recorded, in order, and revert the
 newest, over a database whose connection may be lost between any two statements.
 */
module Migrator {
  import opened Common
  import opened Text

  /** A migration, with the effect of its two statements on the schema. */
  datatype Migration<!S> = Migration(version: string, upSql: string, downSql: string, up: S -> S, down: S -> S)

  /** The schema and the bookkeeping rows, oldest first. */
  datatype Db<S> = Db(schema: S, recorded: seq<string>)

  datatype Failure = Malformed | ConnectionLost

  // ----- Validation -----

  predicate Contains(s: string, part: string) {
    exists i | 0 <= i <= |s| :: part <= s[i..]
  }

  predicate CleanSql(sql: string) {
    !Contains(sql, "?") && !Contains(sql, "<<<<<<<") && !Contains(sql, ">>>>>>>")
  }

  predicate CleanFiles<S>(m: Migration<S>) {
    CleanSql(m.upSql) && CleanSql(m.downSql)
  }

  ghost predicate WellFormed<S>(ms: seq<Migration<S>>) {
    && (forall m <- ms :: CleanFiles(m))
    && (forall i | 0 < i < |ms| :: LexLess(ms[i - 1].version, ms[i].version))
  }

  /** Reject a malformed set before any statement runs. */
  method Validate<S>(ms: seq<Migration<S>>) returns (ok: bool)
    ensures ok <==> WellFormed(ms)
  {
    for i := 0 to |ms|
      invariant forall m <- ms[..i] :: CleanFiles(m)
    {
      if !CleanFiles(ms[i]) {
        assert ms[i] in ms;
        return false;
      }
    }
    var i := 1;
    while i < |ms|
      invariant forall j | 0 < j < i && j < |ms| :: LexLess(ms[j - 1].version, ms[j].version)
    {
      if !LexLess(ms[i - 1].version, ms[i].version) {
        return false;
      }
      i := i + 1;
    }
    return true;
  }

  function Versions<S>(ms: seq<Migration<S>>): (vs: seq<string>)
    ensures |vs| == |ms| && forall i | 0 <= i < |ms| :: vs[i] == ms[i].version
  {
    if ms == [] then [] else [ms[0].version] + Versions(ms[1..])
  }

  ghost predicate Distinct<S>(ms: seq<Migration<S>>) {
    forall i, j | 0 <= i < j < |ms| :: ms[i].version != ms[j].version
  }

  lemma {:induction false} AscendingFrom<S>(ms: seq<Migration<S>>, i: nat, j: nat)
    requires WellFormed(ms) && i < j < |ms|
    ensures LexLess(ms[i].version, ms[j].version)
    decreases j
  {
    if i < j - 1 {
      AscendingFrom(ms, i, j - 1);
      LexTransitive(ms[i].version, ms[j - 1].version, ms[j].version);
    }
  }

  /** A set that validates lists no version twice. */
  lemma {:induction false} WellFormedIsDistinct<S>(ms: seq<Migration<S>>)
    requires WellFormed(ms)
    ensures Distinct(ms)
  {
    forall i, j | 0 <= i < j < |ms|
      ensures ms[i].version != ms[j].version
    {
      AscendingFrom(ms, i, j);
      LexIrreflexive(ms[i].version);
    }
  }

  // ----- Runs and reverts, cut short after `budget` statements -----

  ghost function Done(recorded: seq<string>): set<string> {
    set v | v in recorded
  }

  /** Applying and recording each migration of `ms` not in `done`; whether the run got to the end. */
  ghost function RunSpec<S>(ms: seq<Migration<S>>, done: set<string>, db: Db<S>, budget: nat): (Db<S>, bool)
    decreases |ms|
  {
    if ms == [] then (db, true)
    else if ms[0].version in done then RunSpec(ms[1..], done, db, budget)
    else if budget == 0 then (db, false)
    else
      var upped := db.(schema := ms[0].up(db.schema));
      if budget == 1 then (upped, false)
      else RunSpec(ms[1..], done, upped.(recorded := db.recorded + [ms[0].version]), budget - 2)
  }

  function Without(recorded: seq<string>, v: string): (r: seq<string>)
    ensures v !in recorded ==> r == recorded
    ensures v !in r
  {
    if recorded == [] then []
    else if recorded[0] == v then Without(recorded[1..], v)
    else [recorded[0]] + Without(recorded[1..], v)
  }

  /** Reverting the newest applied migration; the version reverted, if the revert got to the end. */
  ghost function RevertSpec<S>(ms: seq<Migration<S>>, db: Db<S>, budget: nat): (Db<S>, bool)
    decreases |ms|
  {
    if ms == [] then (db, true) else
    var last := ms[|ms| - 1];
    if last.version !in db.recorded then RevertSpec(ms[..|ms| - 1], db, budget)
    else if budget == 0 then (db, false)
    else
      var downed := db.(schema := last.down(db.schema));
      if budget == 1 then (downed, false)
      else (downed.(recorded := Without(db.recorded, last.version)), true)
  }

  /** The database, behind a connection that carries `budget` more statements. */
  class Client<S> {
    var schema: S
    var recorded: seq<string>
    var budget: nat

    constructor (schema: S, budget: nat)
      ensures this.schema == schema && recorded == [] && this.budget == budget
    {
      this.schema := schema;
      recorded := [];
      this.budget := budget;
    }

    function State(): Db<S>
      reads this
    {
      Db(schema, recorded)
    }

    /** One schema statement; `false` when the connection is gone. */
    method Execute(effect: S -> S) returns (ok: bool)
      modifies this
      ensures ok == (old(budget) > 0)
      ensures budget == if ok then old(budget) - 1 else old(budget)
      ensures State() == if ok then old(State()).(schema := effect(old(schema))) else old(State())
    {
      if budget == 0 {
        return false;
      }
      budget := budget - 1;
      schema := effect(schema);
      return true;
    }

    method Record(version: string) returns (ok: bool)
      modifies this
      ensures ok == (old(budget) > 0)
      ensures budget == if ok then old(budget) - 1 else old(budget)
      ensures State() == if ok then old(State()).(recorded := old(recorded) + [version]) else old(State())
    {
      if budget == 0 {
        return false;
      }
      budget := budget - 1;
      recorded := recorded + [version];
      return true;
    }

    method Unrecord(version: string) returns (ok: bool)
      modifies this
      ensures ok == (old(budget) > 0)
      ensures State() == if ok then old(State()).(recorded := Without(old(recorded), version)) else old(State())
    {
      if budget == 0 {
        return false;
      }
      budget := budget - 1;
      recorded := Without(recorded, version);
      return true;
    }

    /** Apply every migration not yet recorded, in order; the versions applied. */
    method Run(ms: seq<Migration<S>>) returns (r: Result<seq<string>, Failure>)
      modifies this
      ensures !WellFormed(ms) ==> r == Err(Malformed) && State() == old(State())
      ensures WellFormed(ms) ==>
                (State(), r.Ok?) == RunSpec(ms, Done(old(recorded)), old(State()), old(budget))
      ensures r.Ok? ==> recorded == old(recorded) + r.value
    {
      var ok := Validate(ms);
      if !ok {
        return Err(Malformed);
      }
      var done := set v | v in recorded;
      var applied := [];
      for i := 0 to |ms|
        invariant recorded == old(recorded) + applied
        invariant RunSpec(ms[i..], done, State(), budget) == RunSpec(ms, done, old(State()), old(budget))
      {
        assert ms[i..][0] == ms[i] && ms[i..][1..] == ms[i + 1..];
        if ms[i].version in done {
          continue;
        }
        var executed := Execute(ms[i].up);
        if !executed {
          return Err(ConnectionLost);
        }
        var noted := Record(ms[i].version);
        if !noted {
          return Err(ConnectionLost);
        }
        applied := applied + [ms[i].version];
      }
      return Ok(applied);
    }

    /** Revert the most recently applied migration; the version reverted, if any was. */
    method RevertLast(ms: seq<Migration<S>>) returns (r: Result<Option<string>, Failure>)
      modifies this
      ensures !WellFormed(ms) ==> r == Err(Malformed) && State() == old(State())
      ensures WellFormed(ms) ==> (State(), r.Ok?) == RevertSpec(ms, old(State()), old(budget))
    {
      var ok := Validate(ms);
      if !ok {
        return Err(Malformed);
      }
      var i := |ms|;
      assert ms[..i] == ms;
      while i > 0
        invariant 0 <= i <= |ms|
        invariant State() == old(State()) && budget == old(budget)
        invariant RevertSpec(ms[..i], State(), budget) == RevertSpec(ms, old(State()), old(budget))
      {
        i := i - 1;
        assert ms[..i + 1][..i] == ms[..i] && ms[..i + 1][i] == ms[i];
        if ms[i].version !in recorded {
          continue;
        }
        var executed := Execute(ms[i].down);
        if !executed {
          return Err(ConnectionLost);
        }
        var removed := Unrecord(ms[i].version);
        if !removed {
          return Err(ConnectionLost);
        }
        return Ok(Some(ms[i].version));
      }
      return Ok(None);
    }
  }

  // ----- Every history keeps a prefix recorded -----

  /** Exactly the first `k` versions are recorded, in order. */
  ghost predicate RecordsPrefix<S>(ms: seq<Migration<S>>, db: Db<S>, k: nat) {
    k <= |ms| && db.recorded == Versions(ms[..k])
  }

  lemma {:induction false} RecordedIffBefore<S>(ms: seq<Migration<S>>, db: Db<S>, k: nat, i: nat)
    requires Distinct(ms) && RecordsPrefix(ms, db, k) && i < |ms|
    ensures ms[i].version in db.recorded <==> i < k
  {
    if i < k { assert db.recorded[i] == ms[i].version; }
  }

  /** Skipping the recorded prefix. */
  lemma {:induction false} RunSkips<S>(ms: seq<Migration<S>>, db: Db<S>, k: nat, i: nat, budget: nat)
    requires Distinct(ms) && RecordsPrefix(ms, db, k) && i <= k
    ensures RunSpec(ms[i..], Done(db.recorded), db, budget) == RunSpec(ms[k..], Done(db.recorded), db, budget)
    decreases k - i
  {
    if i < k {
      RecordedIffBefore(ms, db, k, i);
      assert ms[i..][1..] == ms[i + 1..];
      RunSkips(ms, db, k, i + 1, budget);
    }
  }

  /** How far a run from prefix `k` got: to prefix `j`, possibly with one more migration applied. */
  ghost predicate RanTo<S>(ms: seq<Migration<S>>, k: nat, j: nat, before: S, after: Db<S>, finished: bool) {
    && k <= j && RecordsPrefix(ms, after, j)
    && (finished ==> j == |ms| && after.schema == Resume(ms, k, j, before))
    && (!finished ==> j < |ms| && (after.schema == Resume(ms, k, j, before) ||
                                   after.schema == Resume(ms, k, j + 1, before)))
  }

  lemma {:induction false} VersionsNext<S>(ms: seq<Migration<S>>, k: nat)
    requires k < |ms|
    ensures Versions(ms[..k + 1]) == Versions(ms[..k]) + [ms[k].version]
  {}

  lemma {:induction false} RanFurther<S>(ms: seq<Migration<S>>, k: nat, j: nat, before: S, after: Db<S>, finished: bool)
    requires k < |ms| && RanTo(ms, k + 1, j, ms[k].up(before), after, finished)
    ensures RanTo(ms, k, j, before, after, finished)
  {
    ResumeFirst(ms, k, j, before);
    if j < |ms| { ResumeFirst(ms, k, j + 1, before); }
  }

  /** Past the prefix: what a run records and does to the schema, wherever it is cut short. */
  lemma {:induction false} RunExtends<S>(ms: seq<Migration<S>>, done: set<string>, db: Db<S>, k: nat, budget: nat)
    returns (j: nat)
    requires RecordsPrefix(ms, db, k)
    requires forall i | k <= i < |ms| :: ms[i].version !in done
    ensures var (after, finished) := RunSpec(ms[k..], done, db, budget);
            RanTo(ms, k, j, db.schema, after, finished)
    decreases |ms| - k
  {
    j := k;
    if k < |ms| {
      assert ms[k..][0] == ms[k] && ms[k..][1..] == ms[k + 1..];
      if budget >= 2 {
        VersionsNext(ms, k);
        var next := Db(ms[k].up(db.schema), db.recorded + [ms[k].version]);
        j := RunExtends(ms, done, next, k + 1, budget - 2);
        var (after, finished) := RunSpec(ms[k + 1..], done, next, budget - 2);
        RanFurther(ms, k, j, db.schema, after, finished);
      } else if budget == 1 {
        ResumeFirst(ms, k, k + 1, db.schema);
      }
    }
  }

  /** Applying migrations `k` up to `j` to `schema`. */
  ghost function Resume<S>(ms: seq<Migration<S>>, k: nat, j: nat, schema: S): S
    requires k <= j <= |ms|
    decreases j
  {
    if k == j then schema else ms[j - 1].up(Resume(ms, k, j - 1, schema))
  }

  lemma {:induction false} ResumeFirst<S>(ms: seq<Migration<S>>, k: nat, j: nat, schema: S)
    requires k < j <= |ms|
    ensures Resume(ms, k, j, schema) == Resume(ms, k + 1, j, ms[k].up(schema))
    decreases j
  {
    if k + 1 < j { ResumeFirst(ms, k, j - 1, schema); }
  }

  lemma {:induction false} RevertFinds<S>(ms: seq<Migration<S>>, db: Db<S>, k: nat, i: nat, budget: nat)
    requires Distinct(ms) && RecordsPrefix(ms, db, k) && k <= i <= |ms|
    ensures RevertSpec(ms[..i], db, budget) == RevertSpec(ms[..k], db, budget)
    decreases i
  {
    if k < i {
      RecordedIffBefore(ms, db, k, i - 1);
      assert ms[..i][..i - 1] == ms[..i - 1];
      RevertFinds(ms, db, k, i - 1, budget);
    }
  }

  lemma {:induction false} WithoutLast(recorded: seq<string>, v: string)
    requires v !in recorded
    ensures Without(recorded + [v], v) == recorded
    decreases |recorded|
  {
    if recorded != [] {
      assert (recorded + [v])[1..] == recorded[1..] + [v];
      WithoutLast(recorded[1..], v);
    }
  }

  /** A revert takes one version off the recorded prefix, or none. */
  lemma {:induction false} RevertShrinks<S>(ms: seq<Migration<S>>, db: Db<S>, k: nat, budget: nat) returns (j: nat)
    requires Distinct(ms) && RecordsPrefix(ms, db, k)
    ensures j == if k > 0 && budget >= 2 then k - 1 else k
    ensures RecordsPrefix(ms, RevertSpec(ms, db, budget).0, j)
    ensures RevertSpec(ms, db, budget) ==
            if k == 0 then (db, true)
            else if budget == 0 then (db, false)
            else (Db(ms[k - 1].down(db.schema), Versions(ms[..j])), budget >= 2)
  {
    RevertFinds(ms, db, k, |ms|, budget);
    assert ms[..|ms|] == ms;
    j := if k > 0 && budget >= 2 then k - 1 else k;
    if k > 0 {
      RecordedIffBefore(ms, db, k, k - 1);
      assert ms[..k][k - 1] == ms[k - 1];
      VersionsNext(ms, k - 1);
      RecordedIffBefore(ms, Db(db.schema, Versions(ms[..k - 1])), k - 1, k - 1);
      WithoutLast(Versions(ms[..k - 1]), ms[k - 1].version);
    }
  }

  /** An invocation of the runner, cut short after `budget` statements. */
  datatype Call = RunCall(budget: nat) | RevertCall(budget: nat)

  ghost function Invoke<S>(ms: seq<Migration<S>>, db: Db<S>, c: Call): Db<S> {
    match c
    case RunCall(budget) => RunSpec(ms, Done(db.recorded), db, budget).0
    case RevertCall(budget) => RevertSpec(ms, db, budget).0
  }

  ghost function History<S>(ms: seq<Migration<S>>, db: Db<S>, calls: seq<Call>): Db<S>
    decreases |calls|
  {
    if calls == [] then db else History(ms, Invoke(ms, db, calls[0]), calls[1..])
  }

  /** What one run does to a database that records a prefix. */
  lemma {:induction false} RunOnPrefix<S>(ms: seq<Migration<S>>, db: Db<S>, k: nat, budget: nat) returns (j: nat)
    requires Distinct(ms) && RecordsPrefix(ms, db, k)
    ensures var (after, finished) := RunSpec(ms, Done(db.recorded), db, budget);
            RanTo(ms, k, j, db.schema, after, finished)
  {
    RunSkips(ms, db, k, 0, budget);
    assert ms[0..] == ms;
    forall i | k <= i < |ms| ensures ms[i].version !in Done(db.recorded) {
      RecordedIffBefore(ms, db, k, i);
    }
    j := RunExtends(ms, Done(db.recorded), db, k, budget);
  }

  /** Over every history of runs and reverts, each cut short anywhere, a prefix stays recorded. */
  lemma {:induction false} AlwaysAPrefix<S>(ms: seq<Migration<S>>, db: Db<S>, k: nat, calls: seq<Call>)
    returns (j: nat)
    requires WellFormed(ms) && RecordsPrefix(ms, db, k)
    ensures RecordsPrefix(ms, History(ms, db, calls), j)
    decreases |calls|
  {
    if calls == [] {
      j := k;
    } else {
      WellFormedIsDistinct(ms);
      var mid: nat;
      match calls[0] {
        case RunCall(budget) => mid := RunOnPrefix(ms, db, k, budget);
        case RevertCall(budget) => mid := RevertShrinks(ms, db, k, budget);
      }
      j := AlwaysAPrefix(ms, Invoke(ms, db, calls[0]), mid, calls[1..]);
    }
  }

  // ----- Interrupted runs converge -----

  ghost predicate Idempotent<S(!new)>(ms: seq<Migration<S>>) {
    forall m, s {:trigger m.up(s)} | m in ms :: m.up(m.up(s)) == m.up(s)
  }

  /** The schema is the uninterrupted one, or has one more migration applied than recorded. */
  ghost predicate AtOrTorn<S>(ms: seq<Migration<S>>, empty: S, db: Db<S>, k: nat)
    requires k <= |ms|
  {
    || db.schema == Resume(ms, 0, k, empty)
    || (k < |ms| && db.schema == Resume(ms, 0, k + 1, empty))
  }

  lemma {:induction false} ResumeJoins<S>(ms: seq<Migration<S>>, k: nat, j: nat, empty: S)
    requires k <= j <= |ms|
    ensures Resume(ms, k, j, Resume(ms, 0, k, empty)) == Resume(ms, 0, j, empty)
    decreases j
  {
    if k < j { ResumeJoins(ms, k, j - 1, empty); }
  }

  /** Re-applying the torn migration changes nothing, so the run goes on as if never cut. */
  lemma {:induction false} ResumeTorn<S(!new)>(ms: seq<Migration<S>>, k: nat, j: nat, empty: S, schema: S)
    requires Idempotent(ms) && k < j <= |ms|
    requires schema == Resume(ms, 0, k, empty) || schema == Resume(ms, 0, k + 1, empty)
    ensures Resume(ms, k, j, schema) == Resume(ms, 0, j, empty)
  {
    var s := Resume(ms, 0, k, empty);
    assert ms[k] in ms;
    assert ms[k].up(ms[k].up(s)) == ms[k].up(s);
    ResumeFirst(ms, k, j, schema);
    ResumeJoins(ms, k + 1, j, empty);
  }

  lemma {:induction false} TornRun<S(!new)>(ms: seq<Migration<S>>, empty: S, db: Db<S>, k: nat, budget: nat)
    returns (j: nat)
    requires Distinct(ms) && Idempotent(ms) && RecordsPrefix(ms, db, k) && AtOrTorn(ms, empty, db, k)
    ensures var (after, finished) := RunSpec(ms, Done(db.recorded), db, budget);
            && RecordsPrefix(ms, after, j) && AtOrTorn(ms, empty, after, j)
            && (finished ==> j == |ms| && after.schema == Resume(ms, 0, |ms|, empty))
  {
    j := RunOnPrefix(ms, db, k, budget);
    if k < j { ResumeTorn(ms, k, j, empty, db.schema); }
    if j < |ms| { ResumeTorn(ms, k, j + 1, empty, db.schema); }
  }

  lemma {:induction false} InterruptedRuns<S(!new)>(ms: seq<Migration<S>>, empty: S, db: Db<S>, k: nat,
                                                    calls: seq<Call>) returns (j: nat)
    requires Distinct(ms) && Idempotent(ms) && RecordsPrefix(ms, db, k) && AtOrTorn(ms, empty, db, k)
    requires forall c <- calls :: c.RunCall?
    ensures var after := History(ms, db, calls);
            RecordsPrefix(ms, after, j) && AtOrTorn(ms, empty, after, j)
    decreases |calls|
  {
    if calls == [] {
      j := k;
    } else {
      var mid := TornRun(ms, empty, db, k, calls[0].budget);
      j := InterruptedRuns(ms, empty, Invoke(ms, db, calls[0]), mid, calls[1..]);
    }
  }

  /**
   Starting from an empty record, any number of runs cut short anywhere, followed by one
   that completes, reach the schema and the record of a single uninterrupted run, and a
   further run applies nothing.
   */
  lemma {:induction false} InterruptedRunsConverge<S(!new)>(ms: seq<Migration<S>>, empty: S, calls: seq<Call>,
                                                     last: nat, more: nat)
    requires WellFormed(ms) && Idempotent(ms) && forall c <- calls :: c.RunCall?
    ensures var db := History(ms, Db(empty, []), calls);
            var (after, finished) := RunSpec(ms, Done(db.recorded), db, last);
            finished ==>
              && after == Db(Resume(ms, 0, |ms|, empty), Versions(ms))
              && RunSpec(ms, Done(after.recorded), after, more) == (after, true)
  {
    WellFormedIsDistinct(ms);
    assert ms[..0] == [] && ms[..|ms|] == ms;
    var k := InterruptedRuns(ms, empty, Db(empty, []), 0, calls);
    var db := History(ms, Db(empty, []), calls);
    var j := TornRun(ms, empty, db, k, last);
    var (after, finished) := RunSpec(ms, Done(db.recorded), db, last);
    if finished {
      RunSkips(ms, after, |ms|, 0, more);
      assert ms[0..] == ms && ms[|ms|..] == [];
    }
  }

  // ----- A revert cut short -----

  /** What a revert of the newest recorded version, cut after `budget` statements, leaves of the schema. */
  ghost function Downed<S>(ms: seq<Migration<S>>, k: nat, schema: S, budget: nat): S
    requires 0 < k <= |ms|
  {
    if budget == 0 then schema else ms[k - 1].down(schema)
  }

  /**
   After a revert cut anywhere, a run that finishes resumes after whatever is still recorded.
   Cut between its two statements the revert is not repaired: the version stays recorded, so
   its `up` is not applied again although its `down` was.
   */
  lemma {:induction false} RunAfterRevert<S>(ms: seq<Migration<S>>, db: Db<S>, k: nat, budget: nat, more: nat)
    requires WellFormed(ms) && RecordsPrefix(ms, db, k) && k > 0
    ensures var reverted := RevertSpec(ms, db, budget).0;
            var (after, finished) := RunSpec(ms, Done(reverted.recorded), reverted, more);
            finished ==>
              && after.recorded == Versions(ms)
              && after.schema ==
                 if budget >= 2 then Resume(ms, k - 1, |ms|, ms[k - 1].down(db.schema))
                 else Resume(ms, k, |ms|, Downed(ms, k, db.schema, budget))
  {
    WellFormedIsDistinct(ms);
    var j := RevertShrinks(ms, db, k, budget);
    var reverted := RevertSpec(ms, db, budget).0;
    var end := RunOnPrefix(ms, reverted, j, more);
    assert ms[..|ms|] == ms;
  }

  /** The versions a run from `db` records, when it finishes. */
  ghost function Reapplied<S>(ms: seq<Migration<S>>, db: Db<S>, budget: nat): set<string> {
    var (after, finished) := RunSpec(ms, Done(db.recorded), db, budget);
    if finished then Done(after.recorded) - Done(db.recorded) else {}
  }

  /** Every later run that finishes applies the reverted version again exactly when the revert got to its end. */
  lemma {:induction false} RevertedIsReappliedIff<S>(ms: seq<Migration<S>>, db: Db<S>, k: nat, budget: nat, more: nat)
    requires WellFormed(ms) && RecordsPrefix(ms, db, k) && k > 0
    ensures var reverted := RevertSpec(ms, db, budget).0;
            RunSpec(ms, Done(reverted.recorded), reverted, more).1 ==>
              (ms[k - 1].version in Reapplied(ms, reverted, more) <==> budget >= 2)
  {
    WellFormedIsDistinct(ms);
    RunAfterRevert(ms, db, k, budget, more);
    var j := RevertShrinks(ms, db, k, budget);
    RecordedIffBefore(ms, RevertSpec(ms, db, budget).0, j, k - 1);
    assert Versions(ms)[k - 1] == ms[k - 1].version;
  }

  /** One migration that sets a flag: reverted and cut, the flag stays down after every further run. */
  lemma {:induction false} TornRevertIsNotRepaired(ms: seq<Migration<bool>>, m: Migration<bool>, budget: nat)
    requires ms == [m] && m.up == (s => true) && m.down == (s => false)
    ensures var torn := History(ms, Db(false, []), [RunCall(2), RevertCall(1)]);
            && torn == Db(false, [m.version])
            && RunSpec(ms, Done(torn.recorded), torn, budget) == (torn, true)
  {
    var db0 := Db(false, []);
    assert ms[1..] == [];
    var db1 := Db(true, [m.version]);
    assert m.version !in Done([]);
    assert db0.recorded + [m.version] == [m.version];
    assert RunSpec(ms, Done([]), db0, 2) == RunSpec(ms[1..], Done([]), db1, 0);
    assert Invoke(ms, db0, RunCall(2)) == db1;
    assert RevertSpec(ms, db1, 1).0 == Db(false, [m.version]);
    var calls := [RunCall(2), RevertCall(1)];
    assert calls[1..] == [RevertCall(1)] && calls[1..][1..] == [];
    assert History(ms, db0, calls) == History(ms, db1, calls[1..]);
    var torn := Db(false, [m.version]);
    assert RunSpec(ms, Done(torn.recorded), torn, budget) == RunSpec(ms[1..], Done(torn.recorded), torn, budget);
  }
}
