/**
 Replaying a crate's migrations into the tables that will exist, under the convention
 that a staged table is the future live one and a retired table is on its way out.
 Statements are given parsed.
 */
module Ddl {
  import opened Common
  import opened Text
  import opened Tables
  import Swap

  datatype TableDef = TableDef(
    owner: string, name: string, engine: string, key: string, ttlDays: Option<nat>, source: string)

  datatype Stmt =
    | Create(name: string, engine: string, key: string, ttl: Option<nat>)
    | Rename(pairs: seq<(string, string)>)
    | Exchange(a: string, b: string)
    | Drop(name: string)
    | ModifyTtl(name: string, ttl: Option<nat>)
    | Ignored

  type Defs = map<string, TableDef>

  // ----- One statement -----

  function RenameOne(tables: Defs, pair: (string, string)): Defs {
    var (from, to) := pair;
    if from in tables then (tables - {from})[to := tables[from].(name := to)] else tables
  }

  function RenameAll(tables: Defs, pairs: seq<(string, string)>): Defs
    decreases |pairs|
  {
    if pairs == [] then tables else RenameAll(RenameOne(tables, pairs[0]), pairs[1..])
  }

  /** Both names are taken out before either is put back, so a missing side forgets the other. */
  function ExchangeTwo(tables: Defs, a: string, b: string): Defs {
    var rest := tables - {a} - {b};
    if a in tables && b in tables && a != b
    then rest[b := tables[a].(name := b)][a := tables[b].(name := a)]
    else rest
  }

  function ApplyStmt(owner: string, tables: Defs, file: string, stmt: Stmt): Defs {
    match stmt
    case Create(name, engine, key, ttl) => tables[name := TableDef(owner, name, engine, key, ttl, file)]
    case Rename(pairs) => RenameAll(tables, pairs)
    case Exchange(a, b) => ExchangeTwo(tables, a, b)
    case Drop(name) => tables - {name}
    case ModifyTtl(name, ttl) =>
      if name in tables then tables[name := tables[name].(ttlDays := ttl, source := file)] else tables
    case Ignored => tables
  }

  function ApplyAll(owner: string, tables: Defs, migrations: seq<(string, Stmt)>): Defs
    decreases |migrations|
  {
    if migrations == [] then tables
    else ApplyAll(owner, ApplyStmt(owner, tables, migrations[0].0, migrations[0].1), migrations[1..])
  }

  // ----- The suffix rule -----

  function StagedNames(tables: Defs): set<string> {
    set n | n in tables && EndsWith(n, STAGED_SUFFIX)
  }

  /** A staged table takes its live name. */
  function SettleOne(tables: Defs, staged: string): Defs {
    if staged !in tables then tables else
    var live := TrimEnd(staged, STAGED_SUFFIX);
    (tables - {staged})[live := tables[staged].(name := live)]
  }

  function SettleNames(tables: Defs, names: seq<string>): Defs
    decreases |names|
  {
    if names == [] then tables else SettleNames(SettleOne(tables, names[0]), names[1..])
  }

  function Retained(tables: Defs): Defs {
    map n | n in tables && !EndsWith(n, RETIRED_SUFFIX) :: tables[n]
  }

  ghost function Settle(tables: Defs): Defs {
    Retained(SettleNames(tables, Ascending(StagedNames(tables))))
  }

  /** Every table is filed under its own name. */
  ghost predicate NamesMatch(tables: Defs) {
    forall n <- tables :: tables[n].name == n
  }

  lemma {:induction false} RenamesKeepNames(tables: Defs, pairs: seq<(string, string)>)
    requires NamesMatch(tables)
    ensures NamesMatch(RenameAll(tables, pairs))
    decreases |pairs|
  {
    if pairs != [] { RenamesKeepNames(RenameOne(tables, pairs[0]), pairs[1..]); }
  }

  lemma {:induction false} StatementKeepsNames(owner: string, tables: Defs, file: string, stmt: Stmt)
    requires NamesMatch(tables)
    ensures NamesMatch(ApplyStmt(owner, tables, file, stmt))
  {
    if stmt.Rename? { RenamesKeepNames(tables, stmt.pairs); }
  }

  lemma {:induction false} RenameSnoc(tables: Defs, pairs: seq<(string, string)>, pair: (string, string))
    ensures RenameAll(tables, pairs + [pair]) == RenameOne(RenameAll(tables, pairs), pair)
    decreases |pairs|
  {
    if pairs == [] {
      assert RenameAll(tables, [pair]) == RenameAll(RenameOne(tables, pair), []);
    } else {
      assert (pairs + [pair])[1..] == pairs[1..] + [pair];
      RenameSnoc(RenameOne(tables, pairs[0]), pairs[1..], pair);
    }
  }

  lemma {:induction false} ApplyAppend(owner: string, tables: Defs, first: seq<(string, Stmt)>,
                                       rest: seq<(string, Stmt)>)
    ensures ApplyAll(owner, tables, first + rest) == ApplyAll(owner, ApplyAll(owner, tables, first), rest)
    decreases |first|
  {
    if first == [] {
      assert first + rest == rest;
    } else {
      assert (first + rest)[1..] == first[1..] + rest;
      ApplyAppend(owner, ApplyStmt(owner, tables, first[0].0, first[0].1), first[1..], rest);
    }
  }

  /** One statement, as the replay loop carries it out. */
  method Execute(owner: string, before: Defs, file: string, stmt: Stmt) returns (tables: Defs)
    ensures tables == ApplyStmt(owner, before, file, stmt)
  {
    tables := before;
    match stmt {
      case Create(name, engine, key, ttl) =>
        tables := tables[name := TableDef(owner, name, engine, key, ttl, file)];
      case Rename(pairs) =>
        for j := 0 to |pairs|
          invariant tables == RenameAll(before, pairs[..j])
        {
          RenameSnoc(before, pairs[..j], pairs[j]);
          assert pairs[..j + 1] == pairs[..j] + [pairs[j]];
          var (from, to) := pairs[j];
          if from in tables {
            var def := tables[from].(name := to);
            tables := tables - {from};
            tables := tables[to := def];
          }
        }
        assert pairs[..|pairs|] == pairs;
      case Exchange(a, b) =>
        var left := if a in tables then Some(tables[a]) else None;
        tables := tables - {a};
        var right := if b in tables then Some(tables[b]) else None;
        tables := tables - {b};
        if left.Some? && right.Some? {
          tables := tables[b := left.value.(name := b)];
          tables := tables[a := right.value.(name := a)];
        }
      case Drop(name) =>
        tables := tables - {name};
      case ModifyTtl(name, ttl) =>
        if name in tables {
          tables := tables[name := tables[name].(ttlDays := ttl, source := file)];
        }
      case Ignored =>
    }
  }

  lemma {:induction false} SettleOneFacts(tables: Defs, name: string)
    requires name in StagedNames(tables)
    ensures StagedNames(SettleOne(tables, name)) == StagedNames(tables) - {name}
    ensures NamesMatch(tables) ==> NamesMatch(SettleOne(tables, name))
  {}

  /** The swap convention, as the code carries it out: staged names in ascending order. */
  method SettleInPlace(replayed: Defs) returns (tables: Defs)
    requires NamesMatch(replayed)
    ensures tables == Settle(replayed)
    ensures NamesMatch(tables)
    ensures forall n <- tables :: !EndsWith(n, STAGED_SUFFIX) && !EndsWith(n, RETIRED_SUFFIX)
  {
    tables := replayed;
    var staged := StagedNames(tables);
    while staged != {}
      invariant SettleNames(tables, Ascending(staged)) == SettleNames(replayed, Ascending(StagedNames(replayed)))
      invariant NamesMatch(tables)
      invariant StagedNames(tables) == staged
    {
      LeastExists(staged);
      var name :| name in staged && IsLeast(name, staged);
      LeastUnique(name, Least(staged), staged);
      SettleOneFacts(tables, name);
      if name in tables {
        var live := TrimEnd(name, STAGED_SUFFIX);
        var def := tables[name].(name := live);
        tables := (tables - {name})[live := def];
      }
      staged := staged - {name};
    }
    assert forall n <- tables :: n !in StagedNames(tables);
    assert forall n <- tables :: !EndsWith(n, STAGED_SUFFIX);
    tables := Retained(tables);
  }

  /** Replay one crate's migrations, given in apply order. */
  method Replay(owner: string, migrations: seq<(string, Stmt)>) returns (tables: Defs)
    ensures tables == Settle(ApplyAll(owner, map[], migrations))
    ensures NamesMatch(tables)
    ensures forall n <- tables :: !EndsWith(n, STAGED_SUFFIX) && !EndsWith(n, RETIRED_SUFFIX)
  {
    tables := map[];
    for i := 0 to |migrations|
      invariant tables == ApplyAll(owner, map[], migrations[..i])
      invariant NamesMatch(tables)
    {
      var (file, stmt) := migrations[i];
      StatementKeepsNames(owner, tables, file, stmt);
      ApplySnoc(owner, migrations[..i], file, stmt);
      assert migrations[..i + 1] == migrations[..i] + [(file, stmt)];
      tables := Execute(owner, tables, file, stmt);
    }
    assert migrations[..|migrations|] == migrations;
    tables := SettleInPlace(tables);
  }

  lemma {:induction false} ApplySnoc(owner: string, first: seq<(string, Stmt)>, file: string, stmt: Stmt)
    ensures ApplyAll(owner, map[], first + [(file, stmt)])
         == ApplyStmt(owner, ApplyAll(owner, map[], first), file, stmt)
  {
    var mid := ApplyAll(owner, map[], first);
    ApplyAppend(owner, map[], first, [(file, stmt)]);
    assert ApplyAll(owner, mid, [(file, stmt)]) == ApplyAll(owner, ApplyStmt(owner, mid, file, stmt), []);
  }

  // ----- The suffix rule foretells the swap -----

  function LiveOf(staged: string): string
    requires EndsWith(staged, STAGED_SUFFIX)
  {
    staged[..|staged| - |STAGED_SUFFIX|]
  }

  /** The two statements that put the table staged as `name` in place. */
  function SwapStatements(name: string): seq<(string, Stmt)>
    requires EndsWith(name, STAGED_SUFFIX)
  {
    var live := LiveOf(name);
    [("swap", Exchange(live, name)), ("swap", Rename([(name, Retired(live))]))]
  }

  function SwapAll(names: seq<string>): seq<(string, Stmt)>
    requires forall n <- names :: EndsWith(n, STAGED_SUFFIX)
  {
    if names == [] then [] else SwapStatements(names[0]) + SwapAll(names[1..])
  }

  /** No staged name carries the suffix twice. */
  ghost predicate OneSuffix(tables: Defs) {
    forall n <- StagedNames(tables) :: !EndsWith(LiveOf(n), STAGED_SUFFIX)
  }

  /** Every staged table replaces a table that exists, or one that is itself retired. */
  ghost predicate LivesExist(tables: Defs) {
    forall n <- StagedNames(tables) :: LiveOf(n) in tables || EndsWith(LiveOf(n), RETIRED_SUFFIX)
  }

  lemma {:induction false} SameLast(s: string, suffix: string)
    requires EndsWith(s, suffix) && suffix != ""
    ensures s != "" && s[|s| - 1] == suffix[|suffix| - 1]
  {}

  lemma {:induction false} SuffixesDiffer(s: string)
    ensures !(EndsWith(s, STAGED_SUFFIX) && EndsWith(s, RETIRED_SUFFIX))
  {
    assert STAGED_SUFFIX[5] == 't' && RETIRED_SUFFIX[8] == 'd';
    if EndsWith(s, STAGED_SUFFIX) { SameLast(s, STAGED_SUFFIX); }
    if EndsWith(s, RETIRED_SUFFIX) { SameLast(s, RETIRED_SUFFIX); }
  }

  lemma {:induction false} SuffixFacts(live: string)
    ensures EndsWith(Staged(live), STAGED_SUFFIX) && LiveOf(Staged(live)) == live
    ensures !EndsWith(Staged(live), RETIRED_SUFFIX)
    ensures EndsWith(Retired(live), RETIRED_SUFFIX) && !EndsWith(Retired(live), STAGED_SUFFIX)
    ensures !EndsWith(live, STAGED_SUFFIX) ==> TrimEnd(Staged(live), STAGED_SUFFIX) == live
  {
    var s := Staged(live);
    SuffixesDiffer(s);
    SuffixesDiffer(Retired(live));
    assert s[..|s| - 6] == live;
  }

  lemma {:induction false} StagedName(name: string)
    requires EndsWith(name, STAGED_SUFFIX)
    ensures name == Staged(LiveOf(name))
  {}

  /** Equal up to tables that carry the retired suffix. */
  ghost predicate SameButRetired(s: Defs, x: Defs) {
    forall n {:trigger n in s} {:trigger n in x} | !EndsWith(n, RETIRED_SUFFIX) ::
      (n in s <==> n in x) && (n in s ==> s[n] == x[n])
  }

  /** What the two statements do to the tables. */
  function SwapOne(x: Defs, name: string): Defs
    requires EndsWith(name, STAGED_SUFFIX)
  {
    var live := LiveOf(name);
    if name in x && live in x
    then (x - {name})[live := x[name].(name := live)][Retired(live) := x[live].(name := Retired(live))]
    else x - {name} - {live}
  }

  lemma {:induction false} SwapOneStep(owner: string, x: Defs, name: string)
    requires EndsWith(name, STAGED_SUFFIX)
    ensures ApplyAll(owner, x, SwapStatements(name)) == SwapOne(x, name)
  {
    var live := LiveOf(name);
    StagedName(name);
    NamesDiffer(live);
    var y := ExchangeTwo(x, live, name);
    var pair := (name, Retired(live));
    var z := RenameOne(y, pair);
    assert RenameAll(y, [pair]) == RenameAll(z, []);
    var swap := SwapStatements(name);
    assert swap[1..] == [("swap", Rename([pair]))];
    assert ApplyAll(owner, y, swap[1..]) == ApplyAll(owner, z, []);
    assert z == SwapOne(x, name);
  }

  /** The names still to settle are all there, each with one suffix. */
  ghost predicate Awaiting(x: Defs, names: seq<string>) {
    && (forall n <- names :: EndsWith(n, STAGED_SUFFIX) && !EndsWith(LiveOf(n), STAGED_SUFFIX) && n in x)
    && (forall i, j | 0 <= i < j < |names| :: names[i] != names[j])
  }

  lemma {:induction false} SettlingStepMatches(s: Defs, x: Defs, name: string)
    requires SameButRetired(s, x) && name in x
    requires EndsWith(name, STAGED_SUFFIX) && !EndsWith(LiveOf(name), STAGED_SUFFIX)
    requires LiveOf(name) in x || EndsWith(LiveOf(name), RETIRED_SUFFIX)
    ensures SameButRetired(SettleOne(s, name), SwapOne(x, name))
  {
    var live := LiveOf(name);
    StagedName(name);
    SuffixFacts(live);
    NamesDiffer(live);
    assert name in s && s[name] == x[name];
  }

  /** A swap leaves the other staged names and their live tables in place. */
  lemma {:induction false} SwapOneSpares(x: Defs, names: seq<string>)
    requires names != [] && Awaiting(x, names)
    ensures Awaiting(SwapOne(x, names[0]), names[1..])
    ensures forall n <- names[1..] :: LiveOf(n) in x ==> LiveOf(n) in SwapOne(x, names[0])
  {
    var name := names[0];
    StagedName(name);
    var x' := SwapOne(x, name);
    forall n <- names[1..]
      ensures n in x' && (LiveOf(n) in x ==> LiveOf(n) in x')
    {
      StagedName(n);
      assert LiveOf(n) != LiveOf(name) && n != name;
    }
  }

  lemma {:induction false} SettlingMatchesSwapping(owner: string, s: Defs, x: Defs, names: seq<string>)
    requires SameButRetired(s, x) && Awaiting(x, names)
    requires forall n <- names :: LiveOf(n) in x || EndsWith(LiveOf(n), RETIRED_SUFFIX)
    ensures SameButRetired(SettleNames(s, names), ApplyAll(owner, x, SwapAll(names)))
    decreases |names|
  {
    if names != [] {
      var name := names[0];
      SwapOneStep(owner, x, name);
      ApplyAppend(owner, x, SwapStatements(name), SwapAll(names[1..]));
      SettlingStepMatches(s, x, name);
      SwapOneSpares(x, names);
      SettlingMatchesSwapping(owner, SettleOne(s, name), SwapOne(x, name), names[1..]);
    }
  }

  /** A swap adds no name but a retired one, and takes the staged one away. */
  lemma {:induction false} SwapOneNames(x: Defs, name: string, n: string)
    requires EndsWith(name, STAGED_SUFFIX) && n in SwapOne(x, name)
    ensures n != name && (n in x || EndsWith(n, RETIRED_SUFFIX))
  {
    StagedName(name);
    SuffixFacts(LiveOf(name));
    NamesDiffer(LiveOf(name));
  }

  lemma {:induction false} SwappingNames(owner: string, x: Defs, names: seq<string>, n: string)
    requires Awaiting(x, names) && n in ApplyAll(owner, x, SwapAll(names)) && !EndsWith(n, RETIRED_SUFFIX)
    ensures n in x && n !in names
    decreases |names|
  {
    if names != [] {
      var name := names[0];
      SwapOneStep(owner, x, name);
      ApplyAppend(owner, x, SwapStatements(name), SwapAll(names[1..]));
      SwapOneSpares(x, names);
      SwappingNames(owner, SwapOne(x, name), names[1..], n);
      SwapOneNames(x, name, n);
      assert names == [name] + names[1..];
    }
  }

  lemma {:induction false} SettlingKeeps(s: Defs, names: seq<string>, n: string)
    requires n in s && n !in names
    ensures n in SettleNames(s, names)
    decreases |names|
  {
    if names != [] { SettlingKeeps(SettleOne(s, names[0]), names[1..], n); }
  }

  lemma {:induction false} SettlingInstalls(s: Defs, names: seq<string>, name: string)
    requires Awaiting(s, names) && name in names
    ensures LiveOf(name) in SettleNames(s, names)
    decreases |names|
  {
    var first := names[0];
    StagedName(first);
    SuffixFacts(LiveOf(first));
    var s' := SettleOne(s, first);
    if first == name {
      SettlingKeeps(s', names[1..], LiveOf(name));
    } else {
      SettlingInstalls(s', names[1..], name);
    }
  }

  /** After the swaps nothing is staged that is not retired, so there is nothing left to settle. */
  lemma {:induction false} SwappedIsSettled(owner: string, tables: Defs)
    requires OneSuffix(tables)
    ensures var x := ApplyAll(owner, tables, SwapAll(Ascending(StagedNames(tables))));
            Settle(x) == Retained(x)
  {
    var names := Ascending(StagedNames(tables));
    var x := ApplyAll(owner, tables, SwapAll(names));
    forall n <- x | EndsWith(n, STAGED_SUFFIX)
      ensures false
    {
      SuffixesDiffer(n);
      SwappingNames(owner, tables, names, n);
    }
    assert StagedNames(x) == {};
  }

  lemma {:induction false} SwapForgets(owner: string, tables: Defs, name: string)
    requires OneSuffix(tables) && name in StagedNames(tables)
    requires LiveOf(name) !in tables && !EndsWith(LiveOf(name), RETIRED_SUFFIX)
    ensures var names := Ascending(StagedNames(tables));
            LiveOf(name) in SettleNames(tables, names) && LiveOf(name) !in ApplyAll(owner, tables, SwapAll(names))
  {
    var names := Ascending(StagedNames(tables));
    SettlingInstalls(tables, names, name);
    if LiveOf(name) in ApplyAll(owner, tables, SwapAll(names)) {
      SwappingNames(owner, tables, names, LiveOf(name));
    }
  }

  /**
   Replaying the migrations under the suffix rule gives the tables that replaying them and
   then the swap's own statements gives, exactly when every staged table has a live table
   to replace.
   */
  lemma {:induction false} SuffixRuleForetellsSwap(owner: string, tables: Defs)
    requires OneSuffix(tables)
    ensures var names := Ascending(StagedNames(tables));
            Settle(tables) == Settle(ApplyAll(owner, tables, SwapAll(names))) <==> LivesExist(tables)
  {
    var names := Ascending(StagedNames(tables));
    var s, x := SettleNames(tables, names), ApplyAll(owner, tables, SwapAll(names));
    SwappedIsSettled(owner, tables);
    if LivesExist(tables) {
      SettlingMatchesSwapping(owner, tables, tables, names);
      assert Retained(s) == Retained(x);
    } else {
      var name :| name in StagedNames(tables) && LiveOf(name) !in tables && !EndsWith(LiveOf(name), RETIRED_SUFFIX);
      SwapForgets(owner, tables, name);
      assert LiveOf(name) in Retained(s) && LiveOf(name) !in Retained(x);
    }
  }

  // ----- The replay against the store the statements run on -----

  /** The replayed definitions name the store's tables and give each its partition key. */
  ghost predicate Describes(defs: Defs, store: Swap.Store) {
    forall n {:trigger n in defs} {:trigger n in store} ::
      (n in defs <==> n in store) && (n in defs ==> defs[n].key == store[n].key)
  }

  /** Renaming and dropping in the replay follow the store. */
  lemma {:induction false} ReplayFollowsRename(defs: Defs, store: Swap.Store, from: string, to: string)
    requires Describes(defs, store) && Renamed(store, from, to).Some?
    ensures Describes(RenameOne(defs, (from, to)), Renamed(store, from, to).value)
  {}

  /**
   The store exchanges two tables or refuses; the replay follows it exactly when both
   exist or neither does, and forgets a table otherwise.
   */
  lemma {:induction false} ReplayFollowsExchange(defs: Defs, store: Swap.Store, a: string, b: string)
    requires Describes(defs, store) && a != b
    ensures var after := match Exchanged(store, a, b) case Some(s) => s case None => store;
            Describes(ExchangeTwo(defs, a, b), after) <==> (a in store <==> b in store)
  {
    var after := match Exchanged(store, a, b) case Some(s) => s case None => store;
    var d := ExchangeTwo(defs, a, b);
    if a in store && b !in store {
      assert a !in d && a in after;
    }
    if b in store && a !in store {
      assert b !in d && b in after;
    }
  }

  /** Described, but for tables that carry the retired suffix. */
  ghost predicate Follows(defs: Defs, store: Swap.Store) {
    forall n {:trigger n in defs} {:trigger n in store} | !EndsWith(n, RETIRED_SUFFIX) ::
      (n in defs <==> n in store) && (n in defs ==> defs[n].key == store[n].key)
  }

  /** The pass had nothing to do or did all of it. */
  predicate Settles(pc: Swap.Pc) {
    pc.Done? && (pc.outcome.Swapped? || pc.outcome.CleanedUpStage? || pc.outcome.NothingWaiting?)
  }

  /** Undisturbed boots of these staged tables, one after another, as long as each settles. */
  ghost function BootAll(store: Swap.Store, names: seq<string>): Option<Swap.Store>
    requires forall n <- names :: EndsWith(n, STAGED_SUFFIX)
    decreases |names|
  {
    if names == [] then Some(store) else
    var (after, pc) := Swap.Finish(LiveOf(names[0]), store, Swap.ReadLiveExists);
    if Settles(pc) then BootAll(after, names[1..]) else None
  }

  lemma {:induction false} SettlingFollowsBoot(defs: Defs, store: Swap.Store, name: string)
    requires Follows(defs, store) && name in defs
    requires EndsWith(name, STAGED_SUFFIX) && !EndsWith(LiveOf(name), STAGED_SUFFIX) && !EndsWith(LiveOf(name), RETIRED_SUFFIX)
    ensures var (after, pc) := Swap.Finish(LiveOf(name), store, Swap.ReadLiveExists);
            Settles(pc) ==> Follows(SettleOne(defs, name), after)
  {
    var live := LiveOf(name);
    StagedName(name);
    SuffixFacts(live);
    NamesDiffer(live);
    Swap.BootOutcome(live, store);
  }

  lemma {:induction false} SettleOneSpares(defs: Defs, names: seq<string>)
    requires names != [] && Awaiting(defs, names)
    ensures Awaiting(SettleOne(defs, names[0]), names[1..])
  {
    SuffixFacts(LiveOf(names[0]));
    StagedName(names[0]);
  }

  lemma {:induction false} SettlingFollowsBoots(defs: Defs, store: Swap.Store, names: seq<string>)
    requires Follows(defs, store) && Awaiting(defs, names) && forall n <- names :: !EndsWith(LiveOf(n), RETIRED_SUFFIX)
    ensures var after := BootAll(store, names);
            after.Some? ==> Follows(SettleNames(defs, names), after.value)
    decreases |names|
  {
    if names != [] {
      SettlingFollowsBoot(defs, store, names[0]);
      SettleOneSpares(defs, names);
      var (after, pc) := Swap.Finish(LiveOf(names[0]), store, Swap.ReadLiveExists);
      if Settles(pc) { SettlingFollowsBoots(SettleOne(defs, names[0]), after, names[1..]); }
    }
  }

  /**
   The tables the capacity plan judges are the tables a restart leaves: whenever the boots of
   all staged tables swap, promote, clean up or find nothing to do, the suffix rule describes
   every table they leave but retired ones.
   */
  lemma {:induction false} PlanForetellsBoots(defs: Defs, store: Swap.Store)
    requires Describes(defs, store) && OneSuffix(defs)
    requires forall n <- StagedNames(defs) :: !EndsWith(LiveOf(n), RETIRED_SUFFIX)
    ensures var after := BootAll(store, Ascending(StagedNames(defs)));
            after.Some? ==> Follows(Settle(defs), after.value)
  {
    SettlingFollowsBoots(defs, store, Ascending(StagedNames(defs)));
  }
}
