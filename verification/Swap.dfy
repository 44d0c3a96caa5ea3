/**
 Replacing a table at boot. Each pod runs the boot path one store query or statement
 at a time; writers insert into the live name, and pods start, die and restart between
 any two statements.
 */
module Swap {
  import opened Common
  import opened Tables

  /** A stored table: its partition key and its rows. */
  datatype Table = Table(key: string, rows: multiset<nat>)

  /** What the store says about one table. */
  datatype Facts = Facts(partitionKey: string, rows: nat)

  datatype SwapState =
    | Complete
    | Superseded(stagedRows: nat)
    | SwappableEmpty
    | Pending(liveRows: nat, stagedRows: nat)
    | LiveMissing

  datatype SwapOutcome =
    | NothingWaiting
    | Swapped
    | CleanedUpStage
    | StagedLeftInPlace(rows: nat)
    | DataPending(live: nat, staged: nat)

  /** The judgement: the two tables' facts in, the state out. */
  function Decide(live: Option<Facts>, staged: Option<Facts>): SwapState {
    match (live, staged)
    case (_, None) => Complete
    case (None, Some(_)) => LiveMissing
    case (Some(l), Some(s)) =>
      if l.partitionKey == s.partitionKey then Superseded(s.rows)
      else if l.rows == 0 then SwappableEmpty
      else Pending(l.rows, s.rows)
  }

  /** Where a pod stands: the query or statement it issues next, with what it has read. */
  datatype Pc =
    | Idle
    | ReadLiveExists
    | ReadLiveKey
    | ReadLiveRows(key: string)
    | ReadStagedExists(live: Option<Facts>)
    | ReadStagedKey(live: Option<Facts>)
    | ReadStagedRows(live: Option<Facts>, key: string)
    | DropStaged
    | CheckRetired
    | Exchange
    | RenameToRetired
    | FindRetired
    | CountRetired
    | DropRetired
    | Promote
    | Done(outcome: SwapOutcome)
    | Failed
  {
    /** The pass is over. */
    predicate Ended() { Done? || Failed? }

    predicate Terminal() { Ended() || Idle? }

    /** Statements left, at most. */
    function Rank(): nat {
      match this
      case ReadLiveExists => 13
      case ReadLiveKey => 12
      case ReadLiveRows(_) => 11
      case ReadStagedExists(_) => 10
      case ReadStagedKey(_) => 9
      case ReadStagedRows(_, _) => 8
      case CheckRetired => 7
      case Exchange => 6
      case RenameToRetired => 5
      case FindRetired => 4
      case CountRetired => 3
      case DropStaged => 1
      case DropRetired => 1
      case Promote => 1
      case _ => 0
    }
  }

  /** What the boot path does about each judgement. */
  function Act(state: SwapState): Pc {
    match state
    case Complete => Done(NothingWaiting)
    case Superseded(rows) => if rows == 0 then DropStaged else Done(StagedLeftInPlace(rows))
    case SwappableEmpty => CheckRetired
    case LiveMissing => Promote
    case Pending(l, s) => Done(DataPending(l, s))
  }

  type Store = map<string, Table>

  function Try(before: Store, after: Option<Store>, next: Pc): (Store, Pc) {
    match after
    case Some(store) => (store, next)
    case None => (before, Failed)
  }

  /** One query or statement of the boot path for the table `live`. */
  function PodStep(live: string, store: Store, pc: Pc): (r: (Store, Pc))
    ensures !pc.Terminal() ==> r.1.Rank() < pc.Rank()
  {
    var staged, retired := Staged(live), Retired(live);
    match pc
    case ReadLiveExists => (store, if live in store then ReadLiveKey else ReadStagedExists(None))
    case ReadLiveKey => (store, if live in store then ReadLiveRows(store[live].key) else Failed)
    case ReadLiveRows(key) =>
      (store, if live in store then ReadStagedExists(Some(Facts(key, |store[live].rows|))) else Failed)
    case ReadStagedExists(facts) =>
      (store, if staged in store then ReadStagedKey(facts) else Act(Decide(facts, None)))
    case ReadStagedKey(facts) =>
      (store, if staged in store then ReadStagedRows(facts, store[staged].key) else Failed)
    case ReadStagedRows(facts, key) =>
      (store, if staged in store then Act(Decide(facts, Some(Facts(key, |store[staged].rows|)))) else Failed)
    case DropStaged => (Dropped(store, staged), Done(CleanedUpStage))
    case CheckRetired => (store, if retired in store then Failed else Exchange)
    case Exchange => Try(store, Exchanged(store, live, staged), RenameToRetired)
    case RenameToRetired => Try(store, Renamed(store, staged, retired), FindRetired)
    case FindRetired => (store, if retired in store then CountRetired else Done(Swapped))
    case CountRetired =>
      (store, if retired !in store then Failed else if |store[retired].rows| > 0 then Done(Swapped) else DropRetired)
    case DropRetired => (Dropped(store, retired), Done(Swapped))
    case Promote => Try(store, Renamed(store, staged, live), Done(Swapped))
    case _ => (store, pc)
  }

  /** The boot path run to its end with nothing else happening. */
  function Finish(live: string, store: Store, pc: Pc): (r: (Store, Pc))
    ensures r.1.Terminal()
    decreases pc.Rank()
  {
    if pc.Terminal() then (store, pc) else
    var (next, pc') := PodStep(live, store, pc);
    Finish(live, next, pc')
  }

  lemma {:induction false} ToStaged(live: string, store: Store, l: Option<Facts>)
    requires l == if live in store then Some(Facts(store[live].key, |store[live].rows|)) else None
    ensures Finish(live, store, ReadLiveExists) == Finish(live, store, ReadStagedExists(l))
  {
    if live in store {
      assert Finish(live, store, ReadLiveExists) == Finish(live, store, ReadLiveKey);
      assert Finish(live, store, ReadLiveKey) == Finish(live, store, ReadLiveRows(store[live].key));
    }
  }

  lemma {:induction false} ToJudgement(live: string, store: Store, l: Option<Facts>, s: Option<Facts>)
    requires s == var n := Staged(live);
             if n in store then Some(Facts(store[n].key, |store[n].rows|)) else None
    ensures Finish(live, store, ReadStagedExists(l)) == Finish(live, store, Act(Decide(l, s)))
  {
    if s.Some? {
      assert Finish(live, store, ReadStagedExists(l)) == Finish(live, store, ReadStagedKey(l));
      assert Finish(live, store, ReadStagedKey(l)) == Finish(live, store, ReadStagedRows(l, s.value.partitionKey));
    }
  }

  // ----- The boot path as the code runs it -----

  /** A connection to the store. */
  class Client {
    var tables: Store

    constructor (tables: Store)
      ensures this.tables == tables
    {
      this.tables := tables;
    }

    method ReadFacts(name: string) returns (facts: Option<Facts>)
      ensures facts == if name in tables then Some(Facts(tables[name].key, |tables[name].rows|)) else None
    {
      if name !in tables {
        return None;
      }
      var key := tables[name].key;
      var rows := |tables[name].rows|;
      return Some(Facts(key, rows));
    }

    method Observe(live: string) returns (state: SwapState)
      ensures Finish(live, tables, ReadLiveExists) == Finish(live, tables, Act(state))
    {
      var l := ReadFacts(live);
      var s := ReadFacts(Staged(live));
      state := Decide(l, s);
      ToStaged(live, tables, l);
      ToJudgement(live, tables, l, s);
    }

    /** Put the staged table in place and keep the old one as retired; `false` is the refusal. */
    method ExchangeTables(live: string) returns (ok: bool)
      modifies this
      ensures Finish(live, old(tables), CheckRetired) ==
              if ok then Finish(live, tables, FindRetired) else (tables, Failed)
    {
      var staged, retired := Staged(live), Retired(live);
      if retired in tables {
        return false;
      }
      assert Finish(live, tables, CheckRetired) == Finish(live, tables, Exchange);
      var exchanged := Exchanged(tables, live, staged);
      if exchanged.None? {
        return false;
      }
      tables := exchanged.value;
      var renamed := Renamed(tables, staged, retired);
      if renamed.None? {
        return false;
      }
      tables := renamed.value;
      return true;
    }

    method DropRetiredIfEmpty(live: string) returns (dropped: bool)
      modifies this
      ensures Finish(live, old(tables), FindRetired) == (tables, Done(Swapped))
      ensures dropped <==> Retired(live) in old(tables) && old(tables)[Retired(live)].rows == multiset{}
    {
      var retired := Retired(live);
      if retired !in tables {
        return false;
      }
      if |tables[retired].rows| > 0 {
        return false;
      }
      tables := Dropped(tables, retired);
      return true;
    }

    /** The boot path: complete the replacement when doing so moves no data. */
    method SwapIfSafe(live: string) returns (r: Result<SwapOutcome, string>)
      modifies this
      ensures Finish(live, old(tables), ReadLiveExists) ==
              (tables, if r.Ok? then Done(r.value) else Failed)
    {
      var state := Observe(live);
      match state
      case Complete => return Ok(NothingWaiting);
      case Superseded(rows) =>
        if rows == 0 {
          tables := Dropped(tables, Staged(live));
          return Ok(CleanedUpStage);
        }
        return Ok(StagedLeftInPlace(rows));
      case SwappableEmpty =>
        var ok := ExchangeTables(live);
        if !ok {
          return Err("exchange refused");
        }
        var _ := DropRetiredIfEmpty(live);
        return Ok(Swapped);
      case LiveMissing =>
        var renamed := Renamed(tables, Staged(live), live);
        if renamed.None? {
          return Err("promotion refused");
        }
        tables := renamed.value;
        return Ok(Swapped);
      case Pending(l, s) => return Ok(DataPending(l, s));
    }
  }

  // ----- Pods, writers, crashes and migrations, interleaved -----

  /** The store, every row written so far, and the pods. */
  datatype World = World(store: Store, written: multiset<nat>, pods: seq<Pc>)

  datatype Event =
    | Write(row: nat)
    | Boot(pod: nat)
    | Step(pod: nat)
    | Die(pod: nat)
    | Restart(pod: nat)
    | Stage(key: string)

  /** What an event does; an event that is not possible does nothing. */
  function Apply(live: string, w: World, e: Event): World {
    match e
    case Write(row) =>
      if live !in w.store then w else
      var t := w.store[live];
      w.(store := w.store[live := t.(rows := t.rows + multiset{row})], written := w.written + multiset{row})
    case Boot(i) =>
      if i < |w.pods| && w.pods[i].Idle? then w.(pods := w.pods[i := ReadLiveExists]) else w
    case Step(i) =>
      if i >= |w.pods| then w else
      var (store, pc) := PodStep(live, w.store, w.pods[i]);
      w.(store := store, pods := w.pods[i := pc])
    case Die(i) =>
      if i < |w.pods| && !w.pods[i].Idle? then w.(pods := w.pods[i := Failed]) else w
    case Restart(i) =>
      if i < |w.pods| then w.(pods := w.pods[i := Idle]) else w
    case Stage(key) =>
      if Staged(live) !in w.store && forall pc <- w.pods :: pc.Idle?
      then w.(store := w.store[Staged(live) := Table(key, multiset{})]) else w
  }

  function Run(live: string, w: World, events: seq<Event>): World
    decreases |events|
  {
    if events == [] then w else Run(live, Apply(live, w, events[0]), events[1..])
  }

  function RowsAt(store: Store, name: string): multiset<nat> {
    if name in store then store[name].rows else multiset{}
  }

  /** Every row held under one of the replacement's three names. */
  function Held(live: string, store: Store): multiset<nat> {
    RowsAt(store, live) + RowsAt(store, Staged(live)) + RowsAt(store, Retired(live))
  }

  /** Dropping a table at this point of the path loses no row. */
  ghost predicate DropIsSafe(live: string, store: Store, pc: Pc) {
    && (pc.DropStaged? ==> RowsAt(store, Staged(live)) == multiset{})
    && (pc.DropRetired? ==> RowsAt(store, Retired(live)) == multiset{})
  }

  lemma {:induction false} ExchangeKeepsRows(live: string, store: Store)
    ensures Held(live, PodStep(live, store, Exchange).0) == Held(live, store)
  {
    NamesDiffer(live);
  }

  lemma {:induction false} RetiringKeepsRows(live: string, store: Store)
    ensures Held(live, PodStep(live, store, RenameToRetired).0) == Held(live, store)
  {
    NamesDiffer(live);
    var after := PodStep(live, store, RenameToRetired).0;
    assert RowsAt(after, live) == RowsAt(store, live);
  }

  lemma {:induction false} PromotingKeepsRows(live: string, store: Store)
    ensures Held(live, PodStep(live, store, Promote).0) == Held(live, store)
  {
    NamesDiffer(live);
    var after := PodStep(live, store, Promote).0;
    assert RowsAt(after, Retired(live)) == RowsAt(store, Retired(live));
  }

  lemma {:induction false} DropsKeepRows(live: string, store: Store)
    ensures RowsAt(store, Staged(live)) == multiset{} ==>
              Held(live, PodStep(live, store, DropStaged).0) == Held(live, store)
    ensures RowsAt(store, Retired(live)) == multiset{} ==>
              Held(live, PodStep(live, store, DropRetired).0) == Held(live, store)
  {
    NamesDiffer(live);
  }

  lemma {:induction false} LiveNameStays(live: string, store: Store, pc: Pc)
    ensures live in store ==> live in PodStep(live, store, pc).0
  {
    NamesDiffer(live);
  }

  /** A statement whose drop is safe keeps every row. */
  lemma {:induction false} StepConserves(live: string, store: Store, pc: Pc)
    requires DropIsSafe(live, store, pc)
    ensures Held(live, PodStep(live, store, pc).0) == Held(live, store)
  {
    if pc.Exchange? {
      ExchangeKeepsRows(live, store);
    } else if pc.RenameToRetired? {
      RetiringKeepsRows(live, store);
    } else if pc.Promote? {
      PromotingKeepsRows(live, store);
    } else if pc.DropStaged? || pc.DropRetired? {
      DropsKeepRows(live, store);
    } else {
      assert PodStep(live, store, pc).0 == store;
    }
  }

  /** Every row ever written is held under one of the three names, and no other row is. */
  ghost predicate Accounted(live: string, w: World) {
    Held(live, w.store) == w.written
  }

  /** Nothing written is lost, and the live name still resolves if it did. */
  ghost predicate Kept(live: string, w: World, later: World) {
    && (Accounted(live, w) ==> Accounted(live, later))
    && (live in w.store ==> live in later.store)
  }

  lemma {:induction false} WriteKeeps(live: string, w: World, row: nat)
    ensures Kept(live, w, Apply(live, w, Write(row)))
  {
    NamesDiffer(live);
  }

  lemma {:induction false} StageKeeps(live: string, w: World, key: string)
    ensures Kept(live, w, Apply(live, w, Stage(key)))
  {
    NamesDiffer(live);
  }

  lemma {:induction false} PodStepKeeps(live: string, w: World, i: nat)
    requires i < |w.pods| ==> DropIsSafe(live, w.store, w.pods[i])
    ensures Kept(live, w, Apply(live, w, Step(i)))
  {
    if i < |w.pods| {
      StepConserves(live, w.store, w.pods[i]);
      LiveNameStays(live, w.store, w.pods[i]);
    }
  }

  lemma {:induction false} EventKeeps(live: string, w: World, e: Event)
    requires e.Step? && e.pod < |w.pods| ==> DropIsSafe(live, w.store, w.pods[e.pod])
    ensures Kept(live, w, Apply(live, w, e))
  {
    match e
    case Write(row) => WriteKeeps(live, w, row);
    case Stage(key) => StageKeeps(live, w, key);
    case Step(i) => PodStepKeeps(live, w, i);
    case Boot(_) => assert Apply(live, w, e).store == w.store;
    case Die(_) => assert Apply(live, w, e).store == w.store;
    case Restart(_) => assert Apply(live, w, e).store == w.store;
  }

  // ----- What an undisturbed boot does -----

  /** The outcome of a whole pass, case by case, and the store it leaves. */
  lemma {:induction false} BootOutcome(live: string, store: Store)
    ensures var staged, retired := Staged(live), Retired(live);
            Finish(live, store, ReadLiveExists) ==
            if staged !in store then (store, Done(NothingWaiting))
            else if live !in store then ((store - {staged})[live := store[staged]], Done(Swapped))
            else if store[live].key == store[staged].key then
              if store[staged].rows == multiset{} then (store - {staged}, Done(CleanedUpStage))
              else (store, Done(StagedLeftInPlace(|store[staged].rows|)))
            else if store[live].rows != multiset{} then
              (store, Done(DataPending(|store[live].rows|, |store[staged].rows|)))
            else if retired in store then (store, Failed)
            else ((store - {staged})[live := store[staged]], Done(Swapped))
  {
    NamesDiffer(live);
    var staged := Staged(live);
    var l := if live in store then Some(Facts(store[live].key, |store[live].rows|)) else None;
    var s := if staged in store then Some(Facts(store[staged].key, |store[staged].rows|)) else None;
    ToStaged(live, store, l);
    ToJudgement(live, store, l, s);
    if Act(Decide(l, s)).CheckRetired? && Retired(live) !in store {
      ExchangePath(live, store);
    }
  }

  /** From the decision to exchange to the end, when nothing interferes. */
  lemma {:induction false} ExchangePath(live: string, store: Store)
    requires live in store && Staged(live) in store && Retired(live) !in store
    requires store[live].rows == multiset{}
    ensures Finish(live, store, CheckRetired) == ((store - {Staged(live)})[live := store[Staged(live)]], Done(Swapped))
  {
    NamesDiffer(live);
    var staged, retired := Staged(live), Retired(live);
    var s1 := Exchanged(store, live, staged).value;
    var s2 := Retirement(live, store);
    FinishNext(live, store, CheckRetired, store, Exchange);
    FinishNext(live, store, Exchange, s1, RenameToRetired);
    FinishNext(live, s1, RenameToRetired, s2, FindRetired);
    DropPath(live, s2);
  }

  lemma {:induction false} FinishNext(live: string, store: Store, pc: Pc, next: Store, pc': Pc)
    requires !pc.Terminal() && PodStep(live, store, pc) == (next, pc')
    ensures Finish(live, store, pc) == Finish(live, next, pc')
  {}

  /** The two statements of the exchange, and what dropping the retired table then leaves. */
  lemma {:induction false} Retirement(live: string, store: Store) returns (s2: Store)
    requires live in store && Staged(live) in store && Retired(live) !in store
    ensures var s1 := Exchanged(store, live, Staged(live));
            s1.Some? && Renamed(s1.value, Staged(live), Retired(live)) == Some(s2)
    ensures Retired(live) in s2 && s2[Retired(live)] == store[live]
    ensures Dropped(s2, Retired(live)) == (store - {Staged(live)})[live := store[Staged(live)]]
  {
    NamesDiffer(live);
    s2 := Renamed(Exchanged(store, live, Staged(live)).value, Staged(live), Retired(live)).value;
  }

  lemma {:induction false} DropPath(live: string, store: Store)
    requires Retired(live) in store && store[Retired(live)].rows == multiset{}
    ensures Finish(live, store, FindRetired) == (Dropped(store, Retired(live)), Done(Swapped))
  {
    assert Finish(live, store, FindRetired) == Finish(live, store, CountRetired);
    assert Finish(live, store, CountRetired) == Finish(live, store, DropRetired);
  }

  /**
   A pod that dies between its two statements leaves the tables exchanged and the old one
   staged. The next boot keeps the new definition live exactly when the new table already
   holds rows; otherwise it exchanges the tables back and drops the new one.
   */
  lemma {:induction false} TornExchange(live: string, store: Store)
    requires live in store && Staged(live) in store && Retired(live) !in store
    requires store[live].key != store[Staged(live)].key
    ensures var torn := Exchanged(store, live, Staged(live)).value;
            var after := Finish(live, torn, ReadLiveExists).0;
            && live in after
            && (after[live] == torn[live] <==> store[Staged(live)].rows != multiset{})
            && (store[Staged(live)].rows == multiset{} ==> after == store - {Staged(live)})
  {
    NamesDiffer(live);
    BootOutcome(live, Exchanged(store, live, Staged(live)).value);
  }

  // ----- One pod -----

  ghost predicate OnePod(live: string, w: World) {
    |w.pods| == 1 && DropIsSafe(live, w.store, w.pods[0])
  }

  lemma {:induction false} OnePodStep(live: string, w: World, e: Event)
    requires OnePod(live, w)
    ensures OnePod(live, Apply(live, w, e))
  {
    NamesDiffer(live);
  }

  /**
   One pod, started, stopped and restarted at any statement, among writers and migrations
   that stage a table between boots: no row is ever lost, and a live name that resolves
   keeps resolving.
   */
  lemma {:induction false} OnePodNeverDropsARow(live: string, w: World, events: seq<Event>)
    requires OnePod(live, w)
    ensures Kept(live, w, Run(live, w, events))
    decreases |events|
  {
    if events != [] {
      var next := Apply(live, w, events[0]);
      EventKeeps(live, w, events[0]);
      OnePodStep(live, w, events[0]);
      OnePodNeverDropsARow(live, next, events[1..]);
    }
  }

  // ----- Two pods, one pass each -----

  /** The pods that have made their exchange after `e`. */
  ghost function Exchangers(live: string, w: World, e: Event, ex: set<nat>): set<nat> {
    if e.Step? && e.pod < |w.pods| && w.pods[e.pod].Exchange? && PodStep(live, w.store, Exchange).1.RenameToRetired?
    then ex + {e.pod} else ex
  }

  ghost predicate SinglePass(e: Event) {
    e.Write? || e.Boot? || e.Step? || e.Die?
  }

  /** The pod has retired the old table and not finished. */
  predicate PastRename(pc: Pc) { pc.FindRetired? || pc.CountRetired? || pc.DropRetired? }

  /** Before any exchange: both names still hold the tables whose keys are `lk` and `sk`. */
  ghost predicate KeysFixed(live: string, store: Store, lk: string, sk: string) {
    && (live in store ==> store[live].key == lk)
    && (live !in store ==> lk == sk)
    && (Staged(live) in store ==> store[Staged(live)].key == sk)
  }

  /** ... and what a pod has read or decided agrees with them. */
  ghost predicate ReadsAgree(pc: Pc, lk: string, sk: string) {
    match pc
    case ReadLiveRows(key) => key == lk
    case ReadStagedExists(facts) => facts.Some? ==> facts.value.partitionKey == lk
    case ReadStagedKey(facts) => facts.Some? ==> facts.value.partitionKey == lk
    case ReadStagedRows(facts, key) => (facts.Some? ==> facts.value.partitionKey == lk) && key == sk
    case DropStaged => lk == sk
    case CheckRetired => lk != sk
    case Exchange => lk != sk
    case RenameToRetired => false
    case FindRetired => false
    case CountRetired => false
    case DropRetired => false
    case _ => true
  }

  ghost predicate DropsSafe(live: string, w: World) {
    forall pc <- w.pods :: DropIsSafe(live, w.store, pc)
  }

  /** An exchange is behind the pods that made one. */
  ghost predicate ExchangersMovedOn(w: World, ex: set<nat>) {
    forall i <- ex :: i < |w.pods| && (w.pods[i].RenameToRetired? || PastRename(w.pods[i]) || w.pods[i].Ended())
  }

  ghost predicate UnexchangedAgree(live: string, w: World, lk: string, sk: string, ex: set<nat>) {
    ex == {} ==>
      KeysFixed(live, w.store, lk, sk) && forall pc <- w.pods :: ReadsAgree(pc, lk, sk)
  }

  /** A table one pod has retired stays retired until the pass of one of them ends. */
  ghost predicate RetiredHeld(live: string, w: World)
    requires |w.pods| == 2
  {
    && (PastRename(w.pods[0]) && !w.pods[1].Ended() ==> Retired(live) in w.store)
    && (PastRename(w.pods[1]) && !w.pods[0].Ended() ==> Retired(live) in w.store)
  }

  /** The invariant of two pods; `ex` are the pods that have made their exchange. */
  ghost predicate TwoPods(live: string, w: World, lk: string, sk: string, ex: set<nat>) {
    && |w.pods| == 2
    && DropsSafe(live, w)
    && ExchangersMovedOn(w, ex)
    && UnexchangedAgree(live, w, lk, sk, ex)
    && RetiredHeld(live, w)
  }

  lemma {:induction false} TwoPodsWrite(live: string, w: World, row: nat, lk: string, sk: string, ex: set<nat>)
    requires TwoPods(live, w, lk, sk, ex)
    ensures TwoPods(live, Apply(live, w, Write(row)), lk, sk, Exchangers(live, w, Write(row), ex))
  {
    NamesDiffer(live);
  }

  lemma {:induction false} NoExchangeBesideDrop(w: World, pc: Pc, other: Pc, lk: string, sk: string, ex: set<nat>)
    requires w.pods == [pc, other] || w.pods == [other, pc]
    requires ExchangersMovedOn(w, ex) && (ex == {} ==> ReadsAgree(pc, lk, sk) && ReadsAgree(other, lk, sk))
    ensures !(pc.Exchange? && other.DropStaged?)
  {
    assert pc.Exchange? && other.DropStaged? ==> ex == {};
  }

  /** The only statements that could make the other pod's drop unsafe cannot be issued then. */
  lemma {:induction false} OtherDropStaysSafe(live: string, w: World, i: nat, lk: string, sk: string, ex: set<nat>)
    requires TwoPods(live, w, lk, sk, ex) && i < 2
    ensures DropIsSafe(live, PodStep(live, w.store, w.pods[i]).0, w.pods[1 - i])
  {
    NamesDiffer(live);
    var pc, other := w.pods[i], w.pods[1 - i];
    assert DropIsSafe(live, w.store, other);
    NoExchangeBesideDrop(w, pc, other, lk, sk, ex);
  }

  lemma {:induction false} OwnDropIsSafe(live: string, store: Store, pc: Pc)
    ensures var (after, next) := PodStep(live, store, pc);
            next != pc ==> DropIsSafe(live, after, next)
  {
    NamesDiffer(live);
  }

  lemma {:induction false} StepAgrees(live: string, store: Store, pc: Pc, lk: string, sk: string)
    requires KeysFixed(live, store, lk, sk) && ReadsAgree(pc, lk, sk)
    ensures var (after, next) := PodStep(live, store, pc);
            !(pc.Exchange? && next.RenameToRetired?) ==>
              KeysFixed(live, after, lk, sk) && ReadsAgree(next, lk, sk)
  {
    NamesDiffer(live);
  }

  lemma {:induction false} StepRetired(live: string, w: World, i: nat)
    requires |w.pods| == 2 && RetiredHeld(live, w) && i < 2
    ensures RetiredHeld(live, Apply(live, w, Step(i)))
  {
    NamesDiffer(live);
  }

  lemma {:induction false} TwoPodsStep(live: string, w: World, i: nat, lk: string, sk: string, ex: set<nat>)
    requires TwoPods(live, w, lk, sk, ex) && i < 2
    ensures TwoPods(live, Apply(live, w, Step(i)), lk, sk, Exchangers(live, w, Step(i), ex))
  {
    OtherDropStaysSafe(live, w, i, lk, sk, ex);
    OwnDropIsSafe(live, w.store, w.pods[i]);
    StepRetired(live, w, i);
    if ex == {} {
      StepAgrees(live, w.store, w.pods[i], lk, sk);
    }
  }

  lemma {:induction false} TwoPodsEvent(live: string, w: World, e: Event, lk: string, sk: string, ex: set<nat>)
    requires TwoPods(live, w, lk, sk, ex) && SinglePass(e)
    ensures TwoPods(live, Apply(live, w, e), lk, sk, Exchangers(live, w, e, ex))
  {
    match e
    case Write(row) => TwoPodsWrite(live, w, row, lk, sk, ex);
    case Step(i) => if i < 2 { TwoPodsStep(live, w, i, lk, sk, ex); }
    case Boot(_) => 
    case Die(_) =>
  }

  /** Where two fresh pods may start from: any store at all. */
  lemma {:induction false} TwoPodsStart(live: string, w: World) returns (lk: string, sk: string)
    requires w.pods == [Idle, Idle]
    ensures TwoPods(live, w, lk, sk, {})
  {
    sk := if Staged(live) in w.store then w.store[Staged(live)].key else "";
    lk := if live in w.store then w.store[live].key else sk;
  }

  lemma {:induction false} TwoPodsKeep(live: string, w: World, events: seq<Event>, lk: string, sk: string, ex: set<nat>)
    requires TwoPods(live, w, lk, sk, ex) && forall e <- events :: SinglePass(e)
    ensures Kept(live, w, Run(live, w, events))
    decreases |events|
  {
    if events != [] {
      var e := events[0];
      EventKeeps(live, w, e);
      TwoPodsEvent(live, w, e, lk, sk, ex);
      TwoPodsKeep(live, Apply(live, w, e), events[1..], lk, sk, Exchangers(live, w, e, ex));
    }
  }

  /** Two pods racing through one pass each, either of which may die anywhere, never drop a row. */
  lemma {:induction false} TwoPodsNeverDropARow(live: string, w: World, events: seq<Event>)
    requires w.pods == [Idle, Idle]
    requires forall e <- events :: SinglePass(e)
    ensures Kept(live, w, Run(live, w, events))
  {
    var lk, sk := TwoPodsStart(live, w);
    TwoPodsKeep(live, w, events, lk, sk, {});
  }

  // ----- More pods, and pods that restart -----

  /** `n` pods, none of which has begun. */
  ghost predicate AllIdle(w: World, n: nat) {
    |w.pods| == n && forall i | 0 <= i < n :: w.pods[i] == Idle
  }

  ghost predicate SinglePasses(events: seq<Event>) {
    forall e <- events :: SinglePass(e)
  }

  /** Whatever `n` pods of one pass each meet, in whatever order their statements come, nothing is lost. */
  ghost predicate SafeInOnePass(n: nat) {
    forall live: string, w: World, events: seq<Event> | AllIdle(w, n) && SinglePasses(events) ::
      Kept(live, w, Run(live, w, events))
  }

  /** ... and when pods may die and boot again. */
  ghost predicate SafeWithRestarts(n: nat) {
    forall live: string, w: World, events: seq<Event> | AllIdle(w, n) :: Kept(live, w, Run(live, w, events))
  }

  lemma {:induction false} NoPodKeeps(live: string, w: World, events: seq<Event>)
    requires w.pods == []
    ensures Kept(live, w, Run(live, w, events))
    decreases |events|
  {
    if events != [] {
      EventKeeps(live, w, events[0]);
      NoPodKeeps(live, Apply(live, w, events[0]), events[1..]);
    }
  }

  lemma {:induction false} AtMostOnePodKeeps(live: string, w: World, n: nat, events: seq<Event>)
    requires AllIdle(w, n) && n <= 1
    ensures Kept(live, w, Run(live, w, events))
  {
    if n == 0 {
      NoPodKeeps(live, w, events);
    } else {
      assert w.pods[0] == Idle;
      OnePodNeverDropsARow(live, w, events);
    }
  }

  /** Racing single passes are safe for two pods and for no more. */
  lemma {:induction false} SinglePassesAreSafeIff(n: nat)
    ensures SafeInOnePass(n) <==> n <= 2
  {
    if n <= 2 {
      forall live: string, w: World, events: seq<Event> | AllIdle(w, n) && SinglePasses(events)
        ensures Kept(live, w, Run(live, w, events))
      {
        if n == 2 {
          assert w.pods == [Idle, Idle];
          TwoPodsNeverDropARow(live, w, events);
        } else {
          AtMostOnePodKeeps(live, w, n, events);
        }
      }
    } else {
      var w, events := ThreePodsDropARow();
      Unsafe(w, events, n);
    }
  }

  /** Once a pod may die and boot again, only one is safe. */
  lemma {:induction false} RestartsAreSafeIff(n: nat)
    ensures SafeWithRestarts(n) <==> n <= 1
  {
    if n <= 1 {
      forall live: string, w: World, events: seq<Event> | AllIdle(w, n)
        ensures Kept(live, w, Run(live, w, events))
      {
        AtMostOnePodKeeps(live, w, n, events);
      }
    } else {
      var w, events := RestartBesideAnotherPodDropsARow();
      Unsafe(w, events, n);
    }
  }

  /** A history of some pods is one of any greater number. */
  lemma {:induction false} Unsafe(w: World, events: seq<Event>, n: nat)
    requires |w.pods| <= n && AllIdle(w, |w.pods|) && Accounted("t", w) && !Accounted("t", Run("t", w, events))
    requires forall e <- events :: Concerns(e, |w.pods|)
    ensures !SafeWithRestarts(n) && (SinglePasses(events) ==> !SafeInOnePass(n))
  {
    var more := seq(n - |w.pods|, i => Idle);
    var padded := w.(pods := w.pods + more);
    RunBeside("t", w, more, events);
    assert AllIdle(padded, n);
    assert !Kept("t", padded, Run("t", padded, events));
  }

  /** The event is a write, or one of the first `n` pods'. */
  ghost predicate Concerns(e: Event, n: nat) {
    match e
    case Write(_) => true
    case Boot(i) => i < n
    case Step(i) => i < n
    case Die(i) => i < n
    case Restart(i) => i < n
    case Stage(_) => false
  }

  lemma {:induction false} ApplyBeside(live: string, w: World, more: seq<Pc>, e: Event)
    requires Concerns(e, |w.pods|)
    ensures var after := Apply(live, w, e);
            && |after.pods| == |w.pods|
            && Apply(live, w.(pods := w.pods + more), e) == after.(pods := after.pods + more)
  {
    if !e.Write? {
      var pc := if Apply(live, w, e).pods == w.pods then w.pods[e.pod] else Apply(live, w, e).pods[e.pod];
      assert (w.pods + more)[e.pod := pc] == w.pods[e.pod := pc] + more;
    }
  }

  /** Pods that do nothing change nothing. */
  lemma {:induction false} RunBeside(live: string, w: World, more: seq<Pc>, events: seq<Event>)
    requires forall e <- events :: Concerns(e, |w.pods|)
    ensures var after := Run(live, w, events);
            Run(live, w.(pods := w.pods + more), events) == after.(pods := after.pods + more)
    decreases |events|
  {
    if events != [] {
      ApplyBeside(live, w, more, events[0]);
      RunBeside(live, Apply(live, w, events[0]), more, events[1..]);
    }
  }

  function Steps(pod: nat, n: nat): seq<Event> {
    seq(n, i => Step(pod))
  }

  lemma {:induction false} RunAppend(live: string, w: World, first: seq<Event>, rest: seq<Event>)
    ensures Run(live, w, first + rest) == Run(live, Run(live, w, first), rest)
    decreases |first|
  {
    if first == [] {
      assert first + rest == rest;
    } else {
      assert (first + rest)[1..] == first[1..] + rest;
      RunAppend(live, Apply(live, w, first[0]), first[1..], rest);
    }
  }

  /** An event of these pods; without restarts, one of single passes of which none dies. */
  ghost predicate Allowed(e: Event, n: nat, restarts: bool) {
    Concerns(e, n) && (restarts || (SinglePass(e) && !e.Die?))
  }

  /** `later` is reached from `w` by such events. */
  ghost predicate Reachable(w: World, later: World, restarts: bool) {
    exists events :: Run("t", w, events) == later && forall e <- events :: Allowed(e, |w.pods|, restarts)
  }

  lemma {:induction false} ReachBy(w: World, mid: World, events: seq<Event>, restarts: bool)
    requires Reachable(w, mid, restarts) && forall e <- events :: Allowed(e, |w.pods|, restarts)
    ensures Reachable(w, Run("t", mid, events), restarts)
  {
    var before :| Run("t", w, before) == mid && forall e <- before :: Allowed(e, |w.pods|, restarts);
    RunAppend("t", w, before, events);
    assert forall e <- before + events :: Allowed(e, |w.pods|, restarts);
  }

  lemma {:induction false} ReachEvent(w: World, mid: World, e: Event, restarts: bool)
    requires Reachable(w, mid, restarts) && Allowed(e, |w.pods|, restarts)
    ensures Reachable(w, Apply("t", mid, e), restarts)
  {
    ReachBy(w, mid, [e], restarts);
    assert Run("t", mid, [e]) == Run("t", Apply("t", mid, e), []);
  }

  lemma {:induction false} ReachSteps(w: World, mid: World, pod: nat, n: nat, restarts: bool)
    requires Reachable(w, mid, restarts) && pod < |mid.pods| == |w.pods|
    ensures var (store, pc) := Advance("t", mid.store, mid.pods[pod], n);
            Reachable(w, mid.(store := store, pods := mid.pods[pod := pc]), restarts)
  {
    ReachBy(w, mid, Steps(pod, n), restarts);
    RunSteps("t", mid, pod, n);
  }

  /** The next `n` statements of one pod and nothing else. */
  function Advance(live: string, store: Store, pc: Pc, n: nat): (Store, Pc)
    decreases n
  {
    if n == 0 then (store, pc) else
    var (next, pc') := PodStep(live, store, pc);
    Advance(live, next, pc', n - 1)
  }

  lemma {:induction false} RunSteps(live: string, w: World, pod: nat, n: nat)
    requires pod < |w.pods|
    ensures var (store, pc) := Advance(live, w.store, w.pods[pod], n);
            Run(live, w, Steps(pod, n)) == w.(store := store, pods := w.pods[pod := pc])
    decreases n
  {
    if n == 0 {
      assert w.pods[pod := w.pods[pod]] == w.pods;
    } else {
      var next := Apply(live, w, Step(pod));
      assert Steps(pod, n)[1..] == Steps(pod, n - 1);
      RunSteps(live, next, pod, n - 1);
      var (s, pc) := Advance(live, next.store, next.pods[pod], n - 1);
      assert next.pods[pod := pc] == w.pods[pod := pc];
    }
  }

  /** Reading two empty tables with different keys, a pod decides to exchange them. */
  lemma {:induction false} DecidesToExchange(store: Store, lk: string, sk: string)
    requires "t" in store && store["t"] == Table(lk, multiset{})
    requires Staged("t") in store && store[Staged("t")] == Table(sk, multiset{})
    requires Retired("t") !in store && lk != sk
    ensures Advance("t", store, ReadLiveExists, 3) == (store, ReadStagedExists(Some(Facts(lk, 0))))
    ensures Advance("t", store, ReadLiveExists, 7) == (store, Exchange)
  {
    var f := Some(Facts(lk, 0));
    assert Advance("t", store, ReadLiveRows(lk), 1) == (store, ReadStagedExists(f));
    assert Advance("t", store, ReadLiveKey, 2) == (store, ReadStagedExists(f));
    assert Advance("t", store, CheckRetired, 1) == (store, Exchange);
    assert Advance("t", store, ReadStagedRows(f, sk), 2) == (store, Exchange);
    assert Advance("t", store, ReadStagedKey(f), 3) == (store, Exchange);
    assert Advance("t", store, ReadStagedExists(f), 4) == (store, Exchange);
    assert Advance("t", store, ReadLiveRows(lk), 5) == (store, Exchange);
    assert Advance("t", store, ReadLiveKey, 6) == (store, Exchange);
  }

  /** Having read the live table before an exchange and the staged one after it, a pod decides to drop. */
  lemma {:induction false} DecidesToDrop(store: Store)
    requires Staged("t") in store && store[Staged("t")] == OLD
    ensures Advance("t", store, READ, 3) == (store, DropStaged)
  {
    var f := Some(Facts("old", 0));
    assert Advance("t", store, ReadStagedRows(f, "old"), 1) == (store, DropStaged);
    assert Advance("t", store, ReadStagedKey(f), 2) == (store, DropStaged);
  }

  const OLD: Table := Table("old", multiset{})
  const NEW: Table := Table("new", multiset{})
  const FULL: Table := Table("new", multiset{7})
  const READ: Pc := ReadStagedExists(Some(Facts("old", 0)))

  const BEFORE: Store := map["t" := OLD, Staged("t") := NEW]
  const MIDWAY: Store := map["t" := NEW, Staged("t") := OLD]
  const BACK: Store := map["t" := OLD, Staged("t") := FULL]

  lemma {:induction false} ExchangesHere()
    ensures Advance("t", BEFORE, Exchange, 1) == (MIDWAY, RenameToRetired)
    ensures Advance("t", MIDWAY["t" := FULL], Exchange, 1) == (BACK, RenameToRetired)
  {
    NamesDiffer("t");
    assert BEFORE["t" := NEW][Staged("t") := OLD] == MIDWAY;
    assert Advance("t", BEFORE, Exchange, 1) == Advance("t", MIDWAY, RenameToRetired, 0);
    assert MIDWAY["t" := FULL]["t" := OLD][Staged("t") := FULL] == BACK;
    assert Advance("t", MIDWAY["t" := FULL], Exchange, 1) == Advance("t", BACK, RenameToRetired, 0);
  }

  /**
   The first pod has read the live table, the second has decided to exchange. It does, and
   the first, reading the staged name now, takes the old table for an empty leftover.
   */
  lemma {:induction false} TakenForALeftover(w: World, mid: World, restarts: bool)
    requires |w.pods| == |mid.pods| >= 2 && Reachable(w, mid, restarts)
    requires mid.store == BEFORE && mid.pods[0] == READ && mid.pods[1] == Exchange
    ensures Reachable(w, mid.(store := MIDWAY, pods := mid.pods[1 := RenameToRetired][0 := DropStaged]), restarts)
  {
    NamesDiffer("t");
    ExchangesHere();
    ReachSteps(w, mid, 1, 1, restarts);
    var exchanged := mid.(store := MIDWAY, pods := mid.pods[1 := RenameToRetired]);
    DecidesToDrop(MIDWAY);
    ReachSteps(w, exchanged, 0, 3, restarts);
  }

  /** A row lands, a pod exchanges the tables back, and the first drops the staged name with the row. */
  lemma {:induction false} DropsTheRow(w: World, mid: World, pod: nat, restarts: bool) returns (events: seq<Event>)
    requires 0 < pod < |w.pods| == |mid.pods| && Reachable(w, mid, restarts)
    requires mid.store == MIDWAY && mid.written == multiset{} && mid.pods[0] == DropStaged && mid.pods[pod] == Exchange
    ensures forall e <- events :: Allowed(e, |w.pods|, restarts)
    ensures !Accounted("t", Run("t", w, events))
  {
    NamesDiffer("t");
    ExchangesHere();
    ReachEvent(w, mid, Write(7), restarts);
    assert multiset{} + multiset{7} == multiset{7};
    var full := mid.(store := MIDWAY["t" := FULL], written := multiset{7});
    assert Apply("t", mid, Write(7)) == full;
    ReachSteps(w, full, pod, 1, restarts);
    var back := full.(store := BACK, pods := full.pods[pod := RenameToRetired]);
    ReachEvent(w, back, Step(0), restarts);
    var last := Apply("t", back, Step(0));
    assert last.store == map["t" := OLD];
    assert Held("t", last.store) == multiset{};
    events :| Run("t", w, events) == last && forall e <- events :: Allowed(e, |w.pods|, restarts);
  }

  lemma {:induction false} Starts(w: World)
    ensures Reachable(w, w, false) && Reachable(w, w, true)
  {
    var none: seq<Event> := [];
    assert Run("t", w, none) == w;
  }

  /** A pod boots and takes its first `n` statements. */
  lemma {:induction false} ReachBoot(w: World, mid: World, pod: nat, n: nat, pc: Pc, restarts: bool)
    requires Reachable(w, mid, restarts) && pod < |mid.pods| == |w.pods| && mid.pods[pod] == Idle
    requires Advance("t", mid.store, ReadLiveExists, n) == (mid.store, pc)
    ensures Reachable(w, mid.(pods := mid.pods[pod := pc]), restarts)
  {
    ReachEvent(w, mid, Boot(pod), restarts);
    var booted := mid.(pods := mid.pods[pod := ReadLiveExists]);
    ReachSteps(w, booted, pod, n, restarts);
    assert booted.pods[pod := pc] == mid.pods[pod := pc];
  }

  lemma {:induction false} ThreeReadAndDecide(w: World)
    requires w == World(BEFORE, multiset{}, [Idle, Idle, Idle])
    ensures Reachable(w, w.(pods := [READ, Exchange, Exchange]), false)
  {
    NamesDiffer("t");
    DecidesToExchange(BEFORE, "old", "new");
    Starts(w);
    ReachBoot(w, w, 0, 3, READ, false);
    var w1 := w.(pods := [READ, Idle, Idle]);
    assert w.pods[0 := READ] == w1.pods;
    ReachBoot(w, w1, 1, 7, Exchange, false);
    var w2 := w.(pods := [READ, Exchange, Idle]);
    assert w1.pods[1 := Exchange] == w2.pods;
    ReachBoot(w, w2, 2, 7, Exchange, false);
    assert w2.pods[2 := Exchange] == [READ, Exchange, Exchange];
  }

  /**
   Three pods, each on its first pass and none dying, can lose a row: the first takes the
   old table for an empty leftover, the third, having decided long before, exchanges the
   tables back, and what the first drops is the new table with the row.
   */
  lemma {:induction false} ThreePodsDropARow() returns (w: World, events: seq<Event>)
    ensures |w.pods| == 3 && AllIdle(w, 3) && Accounted("t", w)
    ensures forall e <- events :: Concerns(e, 3) && SinglePass(e) && !e.Die?
    ensures !Accounted("t", Run("t", w, events))
  {
    NamesDiffer("t");
    w := World(BEFORE, multiset{}, [Idle, Idle, Idle]);
    ThreeReadAndDecide(w);
    var w3 := w.(pods := [READ, Exchange, Exchange]);
    TakenForALeftover(w, w3, false);
    events := DropsTheRow(w, w3.(store := MIDWAY, pods := w3.pods[1 := RenameToRetired][0 := DropStaged]), 2, false);
  }

  lemma {:induction false} TwoReadAndDecide(w: World)
    requires w == World(BEFORE, multiset{}, [Idle, Idle])
    ensures Reachable(w, w.(pods := [READ, Exchange]), true)
  {
    NamesDiffer("t");
    DecidesToExchange(BEFORE, "old", "new");
    Starts(w);
    ReachBoot(w, w, 0, 3, READ, true);
    var w1 := w.(pods := [READ, Idle]);
    assert w.pods[0 := READ] == w1.pods;
    ReachBoot(w, w1, 1, 7, Exchange, true);
    assert w1.pods[1 := Exchange] == [READ, Exchange];
  }

  /** Two pods: one about to drop the old table, the other between its two statements. */
  lemma {:induction false} OnePodMidway(w: World)
    requires w == World(BEFORE, multiset{}, [Idle, Idle])
    ensures Reachable(w, w.(store := MIDWAY, pods := [DropStaged, RenameToRetired]), true)
  {
    TwoReadAndDecide(w);
    var w2 := w.(pods := [READ, Exchange]);
    TakenForALeftover(w, w2, true);
    assert w2.pods[1 := RenameToRetired][0 := DropStaged] == [DropStaged, RenameToRetired];
  }

  /** The pod between its two statements dies, boots, and decides to exchange again. */
  lemma {:induction false} DecidesAgain(w: World, mid: World)
    requires |w.pods| == 2 && mid.store == MIDWAY && mid.pods == [DropStaged, RenameToRetired]
    requires Reachable(w, mid, true)
    ensures Reachable(w, mid.(pods := [DropStaged, Exchange]), true)
  {
    ReachEvent(w, mid, Die(1), true);
    var dead := mid.(pods := mid.pods[1 := Failed]);
    ReachEvent(w, dead, Restart(1), true);
    var idle := dead.(pods := dead.pods[1 := Idle]);
    NamesDiffer("t");
    DecidesToExchange(MIDWAY, "new", "old");
    ReachBoot(w, idle, 1, 7, Exchange, true);
    assert idle.pods[1 := Exchange] == [DropStaged, Exchange];
  }

  /**
   Two pods lose a row as soon as one may boot again: it exchanges the tables, dies before
   its RENAME, boots, takes the empty new table for one to replace, and exchanges them back.
   */
  lemma {:induction false} RestartBesideAnotherPodDropsARow() returns (w: World, events: seq<Event>)
    ensures |w.pods| == 2 && AllIdle(w, 2) && Accounted("t", w)
    ensures forall e <- events :: Concerns(e, 2)
    ensures !Accounted("t", Run("t", w, events))
  {
    NamesDiffer("t");
    w := World(BEFORE, multiset{}, [Idle, Idle]);
    OnePodMidway(w);
    var w3 := w.(store := MIDWAY, pods := [DropStaged, RenameToRetired]);
    DecidesAgain(w, w3);
    events := DropsTheRow(w, w3.(pods := [DropStaged, Exchange]), 1, true);
  }
}
