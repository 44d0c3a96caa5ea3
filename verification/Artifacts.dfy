/**
 The artifact store of one target, and the names of throwaway databases. Times are counted
 in ticks; a name keeps only the second a time falls in.
 */
module Artifacts {
  import opened Common
  import opened Text
  import opened Calendar

  const TICKS: nat := 1_000_000_000

  /** A clock reading: the second it falls in, and the ticks since. */
  datatype Instant = Instant(civil: Civil, ticks: nat) {
    function Time(): nat {
      Seconds(civil) * TICKS + ticks % TICKS
    }
  }

  /** Time since an earlier reading; none for a later one. */
  function Since(now: nat, past: nat): nat {
    if now < past then 0 else now - past
  }

  // ----- The store -----

  /** What a manifest says: the cut its contents are as-of, in ticks. */
  datatype Manifest = Manifest(id: string, cut: nat)

  function ArtifactId(target: string, started: Civil): string {
    target + "-" + IsoStamp(started)
  }

  /** Ids of one target sort as the seconds their snapshots started in. */
  lemma {:induction false} IdsSortAsStarts(target: string, a: Civil, b: Civil)
    ensures LexLess(ArtifactId(target, a), ArtifactId(target, b)) <==> Seconds(a) < Seconds(b)
    ensures ArtifactId(target, a) == ArtifactId(target, b) <==> a == b
  {
    StampsSortAsTimes(a, b);
    var p := target + "-";
    LexOfConcat(p, p, IsoStamp(a), IsoStamp(b));
    LexIrreflexive(p);
    SplitsAgree(p, p, IsoStamp(a), IsoStamp(b));
  }

  /** Directories by name; one whose manifest is not yet written is in flight or was interrupted. */
  type Dirs = map<string, Option<Manifest>>

  ghost predicate Complete(dirs: Dirs, id: string) {
    id in dirs && dirs[id].Some?
  }

  /** Manifests of complete artifacts, once each, in the order of their ids. */
  ghost predicate IsListing(dirs: Dirs, list: seq<Manifest>) {
    && (forall i | 0 <= i < |list| :: Complete(dirs, list[i].id) && dirs[list[i].id] == Some(list[i]))
    && (forall id | Complete(dirs, id) :: exists i :: 0 <= i < |list| && list[i].id == id)
    && (forall i, j | 0 <= i < j < |list| :: LexLess(list[i].id, list[j].id))
  }

  /** Every manifest names its own directory. */
  ghost predicate NamedRight(dirs: Dirs) {
    forall id <- dirs :: dirs[id].Some? ==> dirs[id].value.id == id
  }

  /** The newest complete artifact: the one whose id is last. */
  ghost predicate IsNewest(dirs: Dirs, id: string) {
    Complete(dirs, id) && forall other | Complete(dirs, other) :: LexLeq(other, id)
  }

  function Insert(list: seq<Manifest>, m: Manifest): seq<Manifest> {
    if list == [] || LexLess(m.id, list[0].id) then [m] + list else [list[0]] + Insert(list[1..], m)
  }

  ghost predicate Sorted(list: seq<Manifest>) {
    forall i, j | 0 <= i < j < |list| :: LexLess(list[i].id, list[j].id)
  }

  lemma {:induction false} InsertHolds(list: seq<Manifest>, m: Manifest)
    ensures |Insert(list, m)| == |list| + 1
    ensures forall x :: x in Insert(list, m) <==> x == m || x in list
    decreases |list|
  {
    if list != [] && !LexLess(m.id, list[0].id) { InsertHolds(list[1..], m); }
  }

  lemma {:induction false} InsertSorts(list: seq<Manifest>, m: Manifest)
    requires Sorted(list) && forall x <- list :: x.id != m.id
    ensures Sorted(Insert(list, m))
    decreases |list|
  {
    if list == [] {
    } else if LexLess(m.id, list[0].id) {
      forall j | 0 < j < |list| ensures LexLess(m.id, list[j].id) {
        LexTransitive(m.id, list[0].id, list[j].id);
      }
    } else {
      LexTotal(m.id, list[0].id);
      assert list[0] in list;
      InsertSorts(list[1..], m);
      var rest := Insert(list[1..], m);
      InsertHolds(list[1..], m);
      forall j | 0 <= j < |rest| ensures LexLess(list[0].id, rest[j].id) {
        assert rest[j] in rest;
      }
    }
  }

  class ArtifactStore {
    const target: string
    var dirs: Dirs

    constructor (target: string)
      ensures this.target == target && dirs == map[]
    {
      this.target, dirs := target, map[];
    }

    /** Reserve the directory of a new artifact; two in one second collide. */
    method Stage(started: Civil) returns (r: Result<string, string>)
      modifies this
      ensures var id := ArtifactId(target, started);
              if id in old(dirs) then r.Err? && dirs == old(dirs)
              else r == Ok(id) && dirs == old(dirs)[id := None]
    {
      var id := ArtifactId(target, started);
      if id in dirs {
        return Err("already exists");
      }
      dirs := dirs[id := None];
      return Ok(id);
    }

    /** Write the manifest last. */
    method Commit(id: string, cut: nat)
      requires id in dirs
      modifies this
      ensures dirs == old(dirs)[id := Some(Manifest(id, cut))]
    {
      dirs := dirs[id := Some(Manifest(id, cut))];
    }

    /**
     Take a snapshot: reserve a directory, fill it, and write its manifest last. Whatever fails
     on the way leaves a directory that is not an artifact.
     */
    method Snapshot(started: Civil, cut: nat) returns (r: Result<string, string>)
      requires NamedRight(dirs)
      modifies this
      ensures NamedRight(dirs)
      ensures r.Ok? ==> r.value == ArtifactId(target, started) && r.value !in old(dirs)
      ensures r.Ok? ==> dirs == old(dirs)[r.value := Some(Manifest(r.value, cut))]
      ensures r.Err? ==> forall id: string :: Complete(dirs, id) <==> Complete(old(dirs), id)
    {
      var id :- Stage(started);
      if * {
        return Err("the snapshot failed");
      }
      Commit(id, cut);
      return Ok(id);
    }

    /** Every complete artifact, oldest id first, whatever order the directory is read in. */
    method List() returns (list: seq<Manifest>)
      requires NamedRight(dirs)
      ensures IsListing(dirs, list)
    {
      list := [];
      var left := dirs.Keys;
      ghost var seen: set<string> := {};
      while left != {}
        invariant forall id: string :: id in dirs <==> id in left || id in seen
        invariant forall id <- left :: id !in seen
        invariant Sorted(list)
        invariant forall m <- list :: m.id in seen && dirs[m.id] == Some(m)
        invariant forall id <- seen :: dirs[id].Some? ==> dirs[id].value in list
        decreases |left|
      {
        var id :| id in left;
        left, seen := left - {id}, seen + {id};
        if dirs[id].Some? {
          InsertHolds(list, dirs[id].value);
          InsertSorts(list, dirs[id].value);
          list := Insert(list, dirs[id].value);
        }
      }
      ListedAll(dirs, list);
    }

    method Newest() returns (m: Option<Manifest>)
      requires NamedRight(dirs)
      ensures m.None? <==> forall id: string :: !Complete(dirs, id)
      ensures m.Some? ==> IsNewest(dirs, m.value.id) && dirs[m.value.id] == m
    {
      var list := List();
      if list == [] {
        m := None;
      } else {
        m := Some(list[|list| - 1]);
        LastIsNewest(dirs, list);
      }
    }

    /**
     Delete what is older than `keep`, but never the newest. A removal that fails ends the
     pass, with the rest kept.
     */
    method Prune(now: nat, keep: nat) returns (r: Result<seq<string>, string>)
      requires NamedRight(dirs)
      modifies this
      ensures NamedRight(dirs)
      ensures r.Ok? ==> forall id: string :: id in dirs <==> id in old(dirs) && !Prunable(old(dirs), now, keep, id)
      ensures r.Ok? ==> forall id: string :: id in r.value <==> Prunable(old(dirs), now, keep, id)
      ensures forall id: string :: id in old(dirs) && !Prunable(old(dirs), now, keep, id) ==> id in dirs
      ensures forall id: string :: id in dirs ==> id in old(dirs) && dirs[id] == old(dirs)[id]
    {
      var list := List();
      ghost var before := dirs;
      var removed: seq<string> := [];
      var candidates := if |list| == 0 then 0 else |list| - 1;
      for i := 0 to candidates
        invariant Pruned(before, dirs, list, now, keep, i, removed)
      {
        CandidateIsNotNewest(before, list, i);
        if Since(now, list[i].cut) > keep {
          if * {
            return Err("removing");
          }
          PruneOne(before, dirs, list, now, keep, i, removed);
          dirs := dirs - {list[i].id};
          removed := removed + [list[i].id];
        } else {
          PassOver(before, dirs, list, now, keep, i, removed);
        }
      }
      PrunedAll(before, dirs, list, now, keep, removed);
      return Ok(removed);
    }
  }

  /** Complete, older than `keep`, and not the newest. */
  ghost predicate Prunable(dirs: Dirs, now: nat, keep: nat, id: string) {
    Complete(dirs, id) && !IsNewest(dirs, id) && Since(now, dirs[id].value.cut) > keep
  }

  lemma {:induction false} ListedAll(dirs: Dirs, list: seq<Manifest>)
    requires NamedRight(dirs) && Sorted(list)
    requires forall m <- list :: m.id in dirs && dirs[m.id] == Some(m)
    requires forall id <- dirs :: dirs[id].Some? ==> dirs[id].value in list
    ensures IsListing(dirs, list)
  {
    forall i | 0 <= i < |list| ensures Complete(dirs, list[i].id) && dirs[list[i].id] == Some(list[i]) {
      assert list[i] in list;
    }
    forall id: string | Complete(dirs, id) ensures exists i :: 0 <= i < |list| && list[i].id == id {
      var i :| 0 <= i < |list| && list[i] == dirs[id].value;
    }
  }

  lemma {:induction false} LastIsNewest(dirs: Dirs, list: seq<Manifest>)
    requires IsListing(dirs, list) && list != []
    ensures IsNewest(dirs, list[|list| - 1].id)
  {
    forall other: string | Complete(dirs, other) ensures LexLeq(other, list[|list| - 1].id) {
      var i :| 0 <= i < |list| && list[i].id == other;
    }
  }

  /** A snapshot that started after all artifacts of its target becomes the newest. */
  lemma {:induction false} LaterSnapshotIsNewest(dirs: Dirs, target: string, started: Civil, cut: nat)
    requires forall id: string | Complete(dirs, id) ::
               exists c: Civil :: id == ArtifactId(target, c) && Seconds(c) < Seconds(started)
    ensures var id := ArtifactId(target, started);
            IsNewest(dirs[id := Some(Manifest(id, cut))], id)
  {
    var id := ArtifactId(target, started);
    var after := dirs[id := Some(Manifest(id, cut))];
    forall other: string | Complete(after, other) ensures LexLeq(other, id) {
      if other != id {
        assert Complete(dirs, other);
        var c: Civil :| other == ArtifactId(target, c) && Seconds(c) < Seconds(started);
        IdsSortAsStarts(target, c, started);
      }
    }
  }

  lemma {:induction false} NewestIsLast(dirs: Dirs, list: seq<Manifest>, i: nat)
    requires IsListing(dirs, list) && i < |list| && IsNewest(dirs, list[i].id)
    ensures i == |list| - 1
  {
    var last := list[|list| - 1].id;
    if i < |list| - 1 {
      assert Complete(dirs, last) && LexLess(list[i].id, last);
      if last != list[i].id { LexTransitive(list[i].id, last, list[i].id); }
      LexIrreflexive(list[i].id);
    }
  }

  lemma {:induction false} CandidateIsNotNewest(dirs: Dirs, list: seq<Manifest>, i: nat)
    requires IsListing(dirs, list) && i < |list| - 1
    ensures Complete(dirs, list[i].id) && !IsNewest(dirs, list[i].id)
  {
    if IsNewest(dirs, list[i].id) { NewestIsLast(dirs, list, i); }
  }

  /** One of the first `n` is too old. */
  ghost predicate TooOld(list: seq<Manifest>, now: nat, keep: nat, n: nat, id: string)
    requires n <= |list|
  {
    exists i :: 0 <= i < n && list[i].id == id && Since(now, list[i].cut) > keep
  }

  lemma {:induction false} TooOldNext(list: seq<Manifest>, now: nat, keep: nat, n: nat, id: string)
    requires n < |list|
    ensures TooOld(list, now, keep, n + 1, id)
       <==> TooOld(list, now, keep, n, id) || (list[n].id == id && Since(now, list[n].cut) > keep)
  {}

  /** The first candidates gone through: those too old are gone, everything else is as it was. */
  ghost predicate Pruned(before: Dirs, dirs: Dirs, list: seq<Manifest>, now: nat, keep: nat, n: nat,
                         removed: seq<string>) {
    && IsListing(before, list) && n <= |list|
    && (forall id: string :: id in removed <==> TooOld(list, now, keep, n, id))
    && (forall id: string :: id in dirs <==> id in before && id !in removed)
    && (forall id <- dirs :: dirs[id] == before[id])
    && (forall id: string | id in removed :: Prunable(before, now, keep, id))
  }

  lemma {:induction false} PruneOne(before: Dirs, dirs: Dirs, list: seq<Manifest>, now: nat, keep: nat, n: nat,
                                    removed: seq<string>)
    requires Pruned(before, dirs, list, now, keep, n, removed) && n < |list| - 1 && Since(now, list[n].cut) > keep
    ensures Pruned(before, dirs - {list[n].id}, list, now, keep, n + 1, removed + [list[n].id])
  {
    CandidateIsNotNewest(before, list, n);
    assert Prunable(before, now, keep, list[n].id);
    forall id: string ensures id in removed + [list[n].id] <==> TooOld(list, now, keep, n + 1, id) {
      TooOldNext(list, now, keep, n, id);
    }
  }

  lemma {:induction false} PassOver(before: Dirs, dirs: Dirs, list: seq<Manifest>, now: nat, keep: nat, n: nat,
                                    removed: seq<string>)
    requires Pruned(before, dirs, list, now, keep, n, removed) && n < |list| && Since(now, list[n].cut) <= keep
    ensures Pruned(before, dirs, list, now, keep, n + 1, removed)
  {
    forall id: string ensures id in removed <==> TooOld(list, now, keep, n + 1, id) {
      TooOldNext(list, now, keep, n, id);
    }
  }

  lemma {:induction false} PrunedAll(before: Dirs, dirs: Dirs, list: seq<Manifest>, now: nat, keep: nat,
                                     removed: seq<string>)
    requires Pruned(before, dirs, list, now, keep, if |list| == 0 then 0 else |list| - 1, removed)
    ensures forall id: string :: id in removed <==> Prunable(before, now, keep, id)
  {
    forall id: string | Prunable(before, now, keep, id) ensures id in removed {
      var i :| 0 <= i < |list| && list[i].id == id;
      if i == |list| - 1 { LastIsNewest(before, list); }
    }
  }

  /** There is one newest artifact as soon as there is any, so pruning never empties the store. */
  lemma {:induction false} PruneKeepsTheNewest(before: Dirs, after: Dirs, now: nat, keep: nat, id: string)
    requires IsNewest(before, id)
    requires forall x: string :: x in before && !Prunable(before, now, keep, x) ==> x in after
    requires forall x: string :: x in after ==> x in before && after[x] == before[x]
    ensures IsNewest(after, id)
  {
    forall other: string | Complete(after, other) ensures LexLeq(other, id) {
      assert Complete(before, other);
    }
  }

  // ----- Databases -----

  predicate IsNameChar(c: char) {
    IsDigit(c) || 'a' <= c <= 'z' || 'A' <= c <= 'Z' || c == '_' || c == '-'
  }

  predicate IsBareName(name: string) {
    name != "" && |name| <= 63 && forall i | 0 <= i < |name| :: IsNameChar(name[i])
  }

  /** A name that has been checked to be a bare identifier. */
  type Database = n: string | IsBareName(n) witness "a"

  function NewDatabase(name: string): Result<Database, string> {
    if IsBareName(name) then Ok(name) else Err("not a bare database identifier")
  }

  class Scratch {
    const database: Database
    var released: bool

    constructor (database: Database)
      ensures this.database == database && !released
    {
      this.database, released := database, false;
    }

    method Release()
      modifies this
      ensures released
    {
      released := true;
    }

    method Keep() returns (name: Database)
      modifies this
      ensures released && name == database
    {
      released := true;
      name := database;
    }
  }

  // ----- Scratch names -----

  const INFIX := "_drill_"

  function Decimal(n: nat): (s: string)
    ensures s != ""
  {
    if n < 10 then [DigitChar(n)] else Decimal(n / 10) + [DigitChar(n % 10)]
  }

  function ScratchName(prefix: string, created: Civil, pid: nat): string {
    prefix + INFIX + Stamp(created) + "_" + Decimal(pid)
  }

  /** A fresh throwaway database, named for its second; too long a name is refused. */
  method NewScratch(prefix: Database, now: Instant, pid: nat) returns (r: Result<Scratch, string>)
    ensures r.Ok? <==> IsBareName(ScratchName(prefix, now.civil, pid))
    ensures r.Ok? ==> fresh(r.value) && r.value.database == ScratchName(prefix, now.civil, pid) && !r.value.released
  {
    var name :- NewDatabase(ScratchName(prefix, now.civil, pid));
    var scratch := new Scratch(name);
    return Ok(scratch);
  }

  /** The database server a drill restores into. Any of its statements may fail. */
  class Server {
    var databases: set<string>

    constructor (databases: set<string>)
      ensures this.databases == databases
    {
      this.databases := databases;
    }

    /** Create a throwaway database; one that exists already is not taken over. */
    method ProvisionScratch(prefix: Database, now: Instant, pid: nat) returns (r: Result<Scratch, string>)
      modifies this
      ensures r.Err? ==> databases == old(databases)
      ensures r.Ok? ==> fresh(r.value) && !r.value.released && r.value.database == ScratchName(prefix, now.civil, pid)
      ensures r.Ok? ==> r.value.database !in old(databases) && databases == old(databases) + {r.value.database}
    {
      var scratch :- NewScratch(prefix, now, pid);
      if scratch.database in databases {
        return Err("already exists");
      }
      if * {
        return Err("creating the scratch database");
      }
      databases := databases + {scratch.database};
      return Ok(scratch);
    }

    /** Drop a scratch database, which accounts for it only once it is gone. */
    method DropScratch(scratch: Scratch) returns (ok: bool)
      modifies this, scratch
      ensures databases == if ok then old(databases) - {scratch.database} else old(databases)
      ensures scratch.released == (ok || old(scratch.released))
    {
      if * {
        return false;
      }
      databases := databases - {scratch.database};
      scratch.Release();
      return true;
    }

    /**
     Restore into a scratch database and take it away again, restored or not: what is left
     behind is exactly a copy that was asked for, or one that is not accounted for.
     */
    method Drill(prefix: Database, now: Instant, pid: nat, keep: bool) returns (scratch: Option<Scratch>)
      modifies this
      ensures scratch.None? ==> databases == old(databases)
      ensures scratch.Some? ==>
                var name := scratch.value.database;
                && name !in old(databases) && databases - {name} == old(databases)
                && (name in databases <==> keep || !scratch.value.released)
                && (keep ==> scratch.value.released)
    {
      var provisioned := ProvisionScratch(prefix, now, pid);
      if provisioned.Err? {
        return None;
      }
      var s := provisioned.value;
      if keep {
        var _ := s.Keep();
      } else {
        var _ := DropScratch(s);
      }
      return Some(s);
    }

    /** Drop every scratch database past the cutoff; the first drop that fails ends the sweep. */
    method SweepScratch(now: nat, olderThan: nat) returns (r: Result<set<string>, string>)
      modifies this
      ensures databases <= old(databases)
      ensures forall n <- old(databases) :: !IsSweepable(n, now, olderThan) ==> n in databases
      ensures r.Ok? ==> r.value == old(databases) - databases
      ensures r.Ok? ==> forall n <- databases :: !IsSweepable(n, now, olderThan)
    {
      var listed, swept: set<string> := databases, {};
      while listed != {}
        invariant listed <= databases && databases == old(databases) - swept && swept <= old(databases)
        invariant forall n <- swept :: IsSweepable(n, now, olderThan)
        invariant forall n <- databases :: n in listed || !IsSweepable(n, now, olderThan)
        decreases |listed|
      {
        var name :| name in listed;
        listed := listed - {name};
        if IsSweepable(name, now, olderThan) {
          if !IsBareName(name) {
            return Err("not a bare database identifier");
          }
          if * {
            return Err("dropping");
          }
          databases, swept := databases - {name}, swept + {name};
        }
      }
      return Ok(swept);
    }
  }

  predicate InfixAt(name: string, i: nat) {
    i + |INFIX| <= |name| && name[i..i + |INFIX|] == INFIX
  }

  /** Where the infix first occurs. */
  function FirstInfix(name: string, from: nat): (at: Option<nat>)
    requires from <= |name|
    ensures at.Some? ==> at.value >= from && InfixAt(name, at.value) && forall i | from <= i < at.value :: !InfixAt(name, i)
    ensures at.None? ==> forall i | from <= i <= |name| :: !InfixAt(name, i)
    decreases |name| - from
  {
    if InfixAt(name, from) then Some(from)
    else if from == |name| then None
    else FirstInfix(name, from + 1)
  }

  /** The creation second read out of a name, or nothing for what is not a scratch name. */
  function CreatedOf(name: string): Option<Civil> {
    match FirstInfix(name, 0)
    case None => None
    case Some(i) =>
      var rest := name[i + |INFIX|..];
      if |rest| < STAMP_LEN then None else ParseStamp(rest[..STAMP_LEN])
  }

  /** How long ago a scratch database was created; none for a creation that lies ahead. */
  function ScratchAge(name: string, now: nat): Option<nat> {
    match CreatedOf(name)
    case None => None
    case Some(c) => var created := Seconds(c) * TICKS; if created <= now then Some(now - created) else None
  }

  predicate IsSweepable(name: string, now: nat, olderThan: nat) {
    match ScratchAge(name, now)
    case Some(age) => age > olderThan
    case None => false
  }

  /** A prefix that neither holds the infix nor runs into it. */
  ghost predicate IsClear(prefix: string) {
    (forall i: nat :: !InfixAt(prefix, i)) && !EndsWith(prefix, "_drill")
  }

  lemma {:induction false} InfixAfterPrefix(prefix: string, rest: string)
    ensures InfixAt(prefix + INFIX + rest, |prefix|)
  {
    var name := prefix + INFIX + rest;
    assert name[|prefix|..|prefix| + |INFIX|] == INFIX;
  }

  /** An occurrence across the end of the prefix can only share an underscore with the infix. */
  lemma {:induction false} OnlyOneOverlap(prefix: string, rest: string, i: nat)
    requires i < |prefix| < i + |INFIX| && InfixAt(prefix + INFIX + rest, i)
    ensures i + 6 == |prefix| && EndsWith(prefix, "_drill")
  {
    var name := prefix + INFIX + rest;
    var k := |prefix| - i;
    assert forall j | 0 <= j < 7 :: name[i + j] == name[i..i + 7][j] == INFIX[j];
    assert name[|prefix|] == '_' && name[|prefix| + 1] == 'd';
    assert INFIX[k] == '_';
    assert prefix[i..] == name[i..i + 7][..k];
  }

  lemma {:induction false} InfixInPrefix(prefix: string, rest: string, i: nat)
    requires i + |INFIX| <= |prefix|
    ensures InfixAt(prefix + INFIX + rest, i) <==> InfixAt(prefix, i)
  {
    assert (prefix + INFIX + rest)[i..i + |INFIX|] == prefix[i..i + |INFIX|];
  }

  lemma {:induction false} ClearPrefixIsFirst(prefix: string, rest: string)
    requires IsClear(prefix)
    ensures FirstInfix(prefix + INFIX + rest, 0) == Some(|prefix|)
  {
    var name := prefix + INFIX + rest;
    InfixAfterPrefix(prefix, rest);
    forall i | 0 <= i < |prefix| ensures !InfixAt(name, i) {
      if InfixAt(name, i) {
        if i + |INFIX| <= |prefix| {
          InfixInPrefix(prefix, rest, i);
        } else {
          OnlyOneOverlap(prefix, rest, i);
        }
      }
    }
  }

  /** A generated name with a clear prefix carries its own creation second. */
  lemma {:induction false} ClearNameReadsBack(prefix: string, created: Civil, pid: nat)
    requires IsClear(prefix)
    ensures CreatedOf(ScratchName(prefix, created, pid)) == Some(created)
  {
    var rest := Stamp(created) + "_" + Decimal(pid);
    var name := ScratchName(prefix, created, pid);
    assert name == prefix + INFIX + rest;
    ClearPrefixIsFirst(prefix, rest);
    assert name[|prefix| + |INFIX|..] == rest;
    assert rest[..STAMP_LEN] == Stamp(created);
    StampReadsBack(created);
  }

  /** An infix within the prefix hides the stamp: what is read does not depend on the creation time. */
  lemma {:induction false} HiddenByPrefix(prefix: string, j: nat, a: Civil, b: Civil, pid: nat)
    requires FirstInfix(ScratchName(prefix, a, pid), 0) == Some(j) && j + |INFIX| <= |prefix|
    requires FirstInfix(ScratchName(prefix, b, pid), 0) == Some(j)
    ensures CreatedOf(ScratchName(prefix, a, pid)) == CreatedOf(ScratchName(prefix, b, pid))
  {
    var at := j + |INFIX|;
    var x, y := ScratchName(prefix, a, pid)[at..], ScratchName(prefix, b, pid)[at..];
    var gap := |prefix| - at;
    if gap >= STAMP_LEN {
      assert x[..STAMP_LEN] == prefix[at..at + STAMP_LEN] == y[..STAMP_LEN];
    } else {
      assert x[gap] == '_' && y[gap] == '_';
      NotADigit(x[..STAMP_LEN], gap);
      NotADigit(y[..STAMP_LEN], gap);
    }
  }

  lemma {:induction false} NotADigit(s: string, i: nat)
    requires i < |s| && !IsDigit(s[i])
    ensures ParseStamp(s) == None
  {}

  /** A prefix that runs into the infix leaves letters where the stamp should be. */
  lemma {:induction false} LettersInsteadOfStamp(prefix: string, created: Civil, pid: nat)
    requires |prefix| >= 6 && FirstInfix(ScratchName(prefix, created, pid), 0) == Some(|prefix| - 6)
    ensures CreatedOf(ScratchName(prefix, created, pid)) == None
  {
    var rest := ScratchName(prefix, created, pid)[|prefix| + 1..];
    assert rest[0] == 'd';
    NotADigit(rest[..STAMP_LEN], 0);
  }

  lemma {:induction false} UnclearStartsEarly(prefix: string, created: Civil, pid: nat) returns (j: nat)
    requires !IsClear(prefix)
    ensures FirstInfix(ScratchName(prefix, created, pid), 0) == Some(j)
    ensures j + |INFIX| <= |prefix| || j + 6 == |prefix|
  {
    var rest := Stamp(created) + "_" + Decimal(pid);
    var name := ScratchName(prefix, created, pid);
    assert name == prefix + INFIX + rest;
    var i: nat;
    if k: nat :| InfixAt(prefix, k) {
      i := k;
      InfixInPrefix(prefix, rest, i);
    } else {
      i := |prefix| - 6;
      assert prefix[i..] == "_drill";
      assert name[i..i + |INFIX|] == prefix[i..] + ['_'];
    }
    assert InfixAt(name, i);
    j := FirstInfix(name, 0).value;
    if j + |INFIX| > |prefix| && j < |prefix| { OnlyOneOverlap(prefix, rest, j); }
  }

  lemma {:induction false} FirstInfixIsInPrefix(prefix: string, a: Civil, b: Civil, pid: nat, j: nat)
    requires FirstInfix(ScratchName(prefix, a, pid), 0) == Some(j) && j + |INFIX| <= |prefix|
    ensures FirstInfix(ScratchName(prefix, b, pid), 0) == Some(j)
  {
    var r, s := Stamp(a) + "_" + Decimal(pid), Stamp(b) + "_" + Decimal(pid);
    assert ScratchName(prefix, a, pid) == prefix + INFIX + r && ScratchName(prefix, b, pid) == prefix + INFIX + s;
    InfixInPrefix(prefix, r, j);
    InfixInPrefix(prefix, s, j);
    forall i | 0 <= i < j ensures !InfixAt(ScratchName(prefix, b, pid), i) {
      InfixInPrefix(prefix, r, i);
      InfixInPrefix(prefix, s, i);
    }
  }

  lemma {:induction false} UnclearNameMisleads(prefix: string, pid: nat) returns (created: Civil)
    requires !IsClear(prefix)
    ensures CreatedOf(ScratchName(prefix, created, pid)) != Some(created)
  {
    var a, b: Civil := Fields(2026, 1, 1, 0, 0, 0), Fields(2026, 1, 1, 0, 0, 1);
    var j := UnclearStartsEarly(prefix, a, pid);
    created := a;
    if j + |INFIX| <= |prefix| {
      FirstInfixIsInPrefix(prefix, a, b, pid, j);
      HiddenByPrefix(prefix, j, a, b, pid);
      created := if CreatedOf(ScratchName(prefix, a, pid)) == Some(a) then b else a;
    } else {
      LettersInsteadOfStamp(prefix, a, pid);
    }
  }

  /** Generated names read back, whatever their creation second, exactly for clear prefixes. */
  lemma {:induction false} NamesReadBackIff(prefix: string, pid: nat)
    ensures (forall created: Civil :: CreatedOf(ScratchName(prefix, created, pid)) == Some(created)) <==> IsClear(prefix)
  {
    if IsClear(prefix) {
      forall created: Civil ensures CreatedOf(ScratchName(prefix, created, pid)) == Some(created) {
        ClearNameReadsBack(prefix, created, pid);
      }
    } else {
      var created := UnclearNameMisleads(prefix, pid);
    }
  }

  /** A scratch database is swept exactly when the second it was created in is past the cutoff. */
  lemma {:induction false} SweptIffOlder(prefix: string, created: Instant, pid: nat, now: nat, olderThan: nat)
    requires IsClear(prefix)
    ensures IsSweepable(ScratchName(prefix, created.civil, pid), now, olderThan)
       <==> now > Seconds(created.civil) * TICKS + olderThan
    ensures now > created.Time() + olderThan ==> IsSweepable(ScratchName(prefix, created.civil, pid), now, olderThan)
    ensures IsSweepable(ScratchName(prefix, created.civil, pid), now, olderThan) ==> now + TICKS > created.Time() + olderThan
  {
    ClearNameReadsBack(prefix, created.civil, pid);
  }

  /** A sweep never takes a database that does not carry the infix and a readable stamp after it. */
  lemma {:induction false} OnlyScratchIsSwept(name: string, now: nat, olderThan: nat)
    requires IsSweepable(name, now, olderThan)
    ensures exists i: nat :: InfixAt(name, i) && i + |INFIX| + STAMP_LEN <= |name|
                          && ParseStamp(name[i + |INFIX|..i + |INFIX| + STAMP_LEN]).Some?
  {
    var i := FirstInfix(name, 0).value;
    assert name[i + |INFIX|..][..STAMP_LEN] == name[i + |INFIX|..i + |INFIX| + STAMP_LEN];
  }
}
