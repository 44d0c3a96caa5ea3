/**
 One-to-one matching of labels to alerts, both by position, where `fits` says which alert
 would do for which label. Greedy goes through the labels in order.
 */
module Matching {
  import opened Sequences

  type Assignment = map<nat, nat>

  type Fits = (nat, nat) -> bool

  function With(o: Assignment, n: nat, j: nat): Assignment {
    o[n := j]
  }

  function Without(o: Assignment, b: nat): Assignment {
    o - {b}
  }

  ghost predicate IsMatching(fits: Fits, m: Assignment) {
    && (forall i <- m :: fits(i, m[i]))
    && (forall i, k | i in m && k in m && i != k :: m[i] != m[k])
  }

  ghost predicate TakenBefore(m: Assignment, i: nat, j: nat) {
    exists k :: k in m && k < i && m[k] == j
  }

  /** Each label, in order, takes the first alert that fits and no earlier label took. */
  ghost predicate IsGreedy(fits: Fits, m: Assignment) {
    && IsMatching(fits, m)
    && forall i: nat, j: nat | fits(i, j) && !TakenBefore(m, i, j) :: i in m && m[i] <= j
  }

  /** The greedy assignment of the first `n` labels. */
  ghost predicate IsGreedyUpTo(fits: Fits, m: Assignment, n: nat) {
    && IsMatching(fits, m)
    && (forall i <- m :: i < n)
    && forall i: nat, j: nat | fits(i, j) && i < n && !TakenBefore(m, i, j) :: i in m && m[i] <= j
  }

  lemma {:induction false} TakenBeforeNext(m: Assignment, n: nat, j: nat)
    requires forall i <- m :: i < n
    ensures j in m.Values <==> TakenBefore(m, n, j)
  {
    if j in m.Values {
      var h :| h in m && m[h] == j;
    }
  }

  lemma {:induction false} TakenBeforeKept(m: Assignment, n: nat, j: nat, i: nat, k: nat)
    requires i <= n
    ensures TakenBefore(With(m, n, j), i, k) <==> TakenBefore(m, i, k)
  {
    var p := With(m, n, j);
    assert forall h :: h < i ==> (h in p <==> h in m) && (h in p ==> p[h] == m[h]);
  }

  /** The next label takes the first free alert that fits. */
  lemma {:induction false} TakesNext(fits: Fits, m: Assignment, n: nat, j: nat)
    requires IsGreedyUpTo(fits, m, n) && fits(n, j) && j !in m.Values
    requires forall other: nat | other < j && fits(n, other) :: other in m.Values
    ensures IsGreedyUpTo(fits, With(m, n, j), n + 1)
  {
    var p := With(m, n, j);
    forall i: nat, k: nat | fits(i, k) && i < n + 1 && !TakenBefore(p, i, k) ensures i in p && p[i] <= k {
      TakenBeforeKept(m, n, j, i, k);
      TakenBeforeNext(m, n, k);
    }
  }

  /** The next label finds no free alert that fits. */
  lemma {:induction false} MissesNext(fits: Fits, m: Assignment, n: nat)
    requires IsGreedyUpTo(fits, m, n) && forall j: nat | fits(n, j) :: j in m.Values
    ensures IsGreedyUpTo(fits, m, n + 1)
  {
    forall i: nat, k: nat | fits(i, k) && i < n + 1 && !TakenBefore(m, i, k) ensures i in m && m[i] <= k {
      TakenBeforeNext(m, n, k);
    }
  }

  lemma {:induction false} GreedyExists(fits: Fits, labels: nat, alerts: nat) returns (m: Assignment)
    requires forall i: nat, j: nat | fits(i, j) :: j < alerts
    ensures IsGreedyUpTo(fits, m, labels)
    decreases labels
  {
    if labels == 0 {
      m := map[];
    } else {
      var before := GreedyExists(fits, labels - 1, alerts);
      var j := FirstFree(fits, before, labels - 1, alerts);
      if j < alerts {
        TakesNext(fits, before, labels - 1, j);
        m := With(before, labels - 1, j);
      } else {
        MissesNext(fits, before, labels - 1);
        m := before;
      }
    }
  }

  /** The first free alert that fits a label, or `alerts` when there is none. */
  lemma {:induction false} FirstFree(fits: Fits, m: Assignment, i: nat, alerts: nat) returns (j: nat)
    ensures j <= alerts && (j < alerts ==> fits(i, j) && j !in m.Values)
    ensures forall other: nat | other < j && fits(i, other) :: other in m.Values
    decreases alerts
  {
    if alerts == 0 { return 0; }
    j := FirstFree(fits, m, i, alerts - 1);
    if j == alerts - 1 && (!fits(i, j) || j in m.Values) { j := alerts; }
  }

  ghost predicate AgreeUpTo(m: Assignment, o: Assignment, n: nat) {
    forall i | 0 <= i < n :: (i in m <==> i in o) && (i in m ==> m[i] == o[i])
  }

  lemma {:induction false} GreedyAgrees(fits: Fits, m: Assignment, o: Assignment, n: nat)
    requires IsGreedy(fits, m) && IsGreedy(fits, o)
    ensures AgreeUpTo(m, o, n)
    decreases n
  {
    if n > 0 {
      GreedyAgrees(fits, m, o, n - 1);
      var i := n - 1;
      if i in m { assert !TakenBefore(o, i, m[i]); }
      if i in o { assert !TakenBefore(m, i, o[i]); }
    }
  }

  /** There is only one greedy assignment. */
  lemma {:induction false} GreedyIsUnique(fits: Fits, m: Assignment, o: Assignment)
    requires IsGreedy(fits, m) && IsGreedy(fits, o)
    ensures m == o
  {
    forall i: nat ensures (i in m <==> i in o) && (i in m ==> m[i] == o[i]) {
      GreedyAgrees(fits, m, o, i + 1);
    }
  }

  /** No missed label has an alert left over that would fit. */
  lemma {:induction false} GreedyIsMaximal(fits: Fits, m: Assignment, i: nat, j: nat)
    requires IsGreedy(fits, m) && i !in m && j !in m.Values
    ensures !fits(i, j)
  {
    assert !TakenBefore(m, i, j);
  }

  // ----- At least half of the best -----

  lemma {:induction false} ValuesOfMatching(fits: Fits, m: Assignment)
    requires IsMatching(fits, m)
    ensures |m.Values| == |m|
    decreases |m|
  {
    if m != map[] {
      var i :| i in m;
      var rest := Without(m, i);
      ValuesOfMatching(fits, rest);
      assert m.Values == rest.Values + {m[i]} by { ValuesWithout(m, i); }
      assert m[i] !in rest.Values;
      assert m.Keys == rest.Keys + {i};
    }
  }

  lemma {:induction false} ValuesWithout(m: Assignment, i: nat)
    requires i in m
    ensures m.Values == Without(m, i).Values + {m[i]}
  {
    var rest := Without(m, i);
    assert forall k <- rest :: k in m && rest[k] == m[k];
    forall j <- m.Values ensures j in rest.Values + {m[i]} {
      var k :| k in m && m[k] == j;
      if k != i { assert k in rest && rest[k] == j; }
    }
  }

  ghost function Into(o: Assignment, taken: set<nat>): set<nat> {
    set i | i in o && o[i] in taken
  }

  /** Labels of a matching whose alert lies in some set are no more than the set. */
  lemma {:induction false} LabelsInto(fits: Fits, o: Assignment, taken: set<nat>)
    requires IsMatching(fits, o)
    ensures |Into(o, taken)| <= |taken|
    decreases |taken|
  {
    if Into(o, taken) != {} {
      var i :| i in Into(o, taken);
      var fewer := taken - {o[i]};
      LabelsInto(fits, o, fewer);
      assert Into(o, taken) == Into(o, fewer) + {i};
    }
  }

  lemma {:induction false} UnionSize(a: set<nat>, b: set<nat>, c: set<nat>)
    requires c <= a + b
    ensures |c| <= |a| + |b|
  {
    SubsetSize(c, a + b);
    assert a + b == a + (b - a);
    SubsetSize(b - a, b);
  }

  /** Every matching is at most twice as large as the greedy one. */
  lemma {:induction false} GreedyIsHalfOfBest(fits: Fits, m: Assignment, o: Assignment)
    requires IsGreedy(fits, m) && IsMatching(fits, o)
    ensures |o| <= 2 * |m|
  {
    ValuesOfMatching(fits, m);
    LabelsInto(fits, o, m.Values);
    forall i <- o.Keys ensures i in m.Keys + Into(o, m.Values) {
      if i !in m && o[i] !in m.Values { GreedyIsMaximal(fits, m, i, o[i]); }
    }
    UnionSize(m.Keys, Into(o, m.Values), o.Keys);
    assert |m.Keys| == |m| && |o.Keys| == |o|;
  }

  // ----- When greedy is best -----

  /** A later label that shares an alert with an earlier one accepts all the earlier one does. */
  ghost predicate Nested(fits: Fits) {
    forall i, k, j, other | i < k && fits(i, j) && fits(k, j) && fits(i, other) :: fits(k, other)
  }

  /** Label `n` takes an alert nobody else has. */
  lemma {:induction false} Move(fits: Fits, o: Assignment, n: nat, j: nat)
    requires IsMatching(fits, o) && fits(n, j) && forall k <- o :: k != n ==> o[k] != j
    ensures IsMatching(fits, With(o, n, j)) && |With(o, n, j)| >= |o|
  {
    SubsetSize(o.Keys, With(o, n, j).Keys);
  }

  /** Label `n` takes the alert of label `b`, which is left with none. */
  lemma {:induction false} Replace(fits: Fits, o: Assignment, n: nat, b: nat)
    requires IsMatching(fits, o) && n !in o && b in o && fits(n, o[b])
    ensures var p := With(Without(o, b), n, o[b]);
            IsMatching(fits, p) && |p| == |o|
  {
    assert With(Without(o, b), n, o[b]).Keys == o.Keys - {b} + {n};
  }

  /** Labels `n` and `b` swap their alerts. */
  lemma {:induction false} SwapAlerts(fits: Fits, o: Assignment, n: nat, b: nat)
    requires IsMatching(fits, o) && n in o && b in o && n != b && fits(n, o[b]) && fits(b, o[n])
    ensures var p := With(With(o, n, o[b]), b, o[n]);
            IsMatching(fits, p) && |p| == |o|
  {
    assert With(With(o, n, o[b]), b, o[n]).Keys == o.Keys;
  }

  /** Label `n` takes the alert of a later label, which gets the one of label `n` if it had one. */
  lemma {:induction false} TakeOver(fits: Fits, o: Assignment, n: nat, b: nat) returns (p: Assignment)
    requires IsMatching(fits, o) && Nested(fits) && n < b && b in o && fits(n, o[b])
    ensures IsMatching(fits, p) && |p| >= |o| && AgreeUpTo(o, p, n) && n in p && p[n] == o[b]
  {
    if n in o {
      SwapAlerts(fits, o, n, b);
      p := With(With(o, n, o[b]), b, o[n]);
    } else {
      Replace(fits, o, n, b);
      p := With(Without(o, b), n, o[b]);
    }
  }

  /** Any matching can be turned, without loss, into one that follows greedy on one label more. */
  lemma {:induction false} ExchangeOne(fits: Fits, m: Assignment, o: Assignment, n: nat) returns (p: Assignment)
    requires IsGreedy(fits, m) && IsMatching(fits, o) && Nested(fits) && AgreeUpTo(m, o, n)
    ensures IsMatching(fits, p) && AgreeUpTo(m, p, n + 1) && |p| >= |o|
  {
    if n !in m {
      assert n in o ==> TakenBefore(m, n, o[n]);
      p := o;
    } else if b: nat :| b in o && o[b] == m[n] && b != n {
      assert b > n;
      p := TakeOver(fits, o, n, b);
    } else {
      Move(fits, o, n, m[n]);
      p := With(o, n, m[n]);
    }
  }

  lemma {:induction false} ExchangeAll(fits: Fits, m: Assignment, o: Assignment, n: nat) returns (p: Assignment)
    requires IsGreedy(fits, m) && IsMatching(fits, o) && Nested(fits)
    ensures IsMatching(fits, p) && AgreeUpTo(m, p, n) && |p| >= |o|
    decreases n
  {
    if n == 0 {
      p := o;
    } else {
      var q := ExchangeAll(fits, m, o, n - 1);
      p := ExchangeOne(fits, m, q, n - 1);
    }
  }

  /** On nested labels greedy leaves as few without an alert as any matching does. */
  lemma {:induction false} GreedyIsBest(fits: Fits, m: Assignment, o: Assignment, labels: nat)
    requires IsGreedy(fits, m) && IsMatching(fits, o) && Nested(fits)
    requires forall i: nat, j: nat | fits(i, j) :: i < labels
    ensures |o| <= |m|
  {
    var p := ExchangeAll(fits, m, o, labels);
    assert p == m;
  }

  // ----- Counts of one class of labels -----

  /** Labels `peers` that accept exactly the alerts `pool`, which no other label accepts. */
  ghost predicate IsClass(fits: Fits, peers: set<nat>, pool: set<nat>) {
    && (forall i <- peers, j <- pool :: fits(i, j))
    && (forall i, j | fits(i, j) :: i in peers <==> j in pool)
  }

  /** Greedy gives alerts to as many labels of a class as there are labels or alerts of it. */
  lemma {:induction false} ClassCount(fits: Fits, m: Assignment, peers: set<nat>, pool: set<nat>)
    requires IsGreedy(fits, m) && IsClass(fits, peers, pool)
    ensures |peers * m.Keys| == if |peers| <= |pool| then |peers| else |pool|
  {
    var served := peers * m.Keys;
    assert served == Into(m, pool);
    LabelsInto(fits, m, pool);
    SubsetSize(served, peers);
    if i :| i in peers && i !in m {
      forall j <- pool ensures j in m.Values {
        if j !in m.Values { GreedyIsMaximal(fits, m, i, j); }
      }
      ValuesInto(fits, m, pool);
    } else {
      assert served == peers;
    }
  }

  /** Alerts that are all taken are taken by as many labels. */
  lemma {:induction false} ValuesInto(fits: Fits, m: Assignment, pool: set<nat>)
    requires IsMatching(fits, m) && pool <= m.Values
    ensures |Into(m, pool)| == |pool|
    decreases |pool|
  {
    if pool != {} {
      var j :| j in pool;
      var i :| i in m && m[i] == j;
      ValuesInto(fits, m, pool - {j});
      assert Into(m, pool) == Into(m, pool - {j}) + {i};
    } else {
      assert Into(m, pool) == {};
    }
  }

  // ----- When greedy is not best -----

  /** Each of these labels has the alert of a label of `o`, whose other number it is. */
  ghost predicate IsRenamed(o: Assignment, numbers: map<nat, nat>, p: Assignment) {
    forall k <- p :: exists i :: i in o && i in numbers && numbers[i] == k && p[k] == o[i]
  }

  /** Numbering the labels otherwise, one to one, leaves a matching as large. */
  lemma {:induction false} RenameLabels(fits: Fits, other: Fits, o: Assignment, numbers: map<nat, nat>)
    returns (p: Assignment)
    requires IsMatching(fits, o) && forall i <- o :: i in numbers && other(numbers[i], o[i])
    requires forall i, k | i in numbers && k in numbers && i != k :: numbers[i] != numbers[k]
    ensures IsMatching(other, p) && IsRenamed(o, numbers, p) && |p| == |o|
    decreases |o|
  {
    if o == map[] {
      p := map[];
    } else {
      var i :| i in o;
      var rest := Without(o, i);
      assert rest.Keys == o.Keys - {i};
      var q := RenameLabels(fits, other, rest, numbers);
      p := With(q, numbers[i], o[i]);
      IsNewThere(o, numbers, i, q);
      MatchOneMore(other, q, numbers[i], o[i]);
      RenameOneMore(o, numbers, i, q);
    }
  }

  lemma {:induction false} IsNewThere(o: Assignment, numbers: map<nat, nat>, i: nat, q: Assignment)
    requires i in o && i in numbers && IsRenamed(Without(o, i), numbers, q)
    requires forall k | k in o && k != i :: o[k] != o[i]
    requires forall k, l | k in numbers && l in numbers && k != l :: numbers[k] != numbers[l]
    ensures numbers[i] !in q && forall k <- q :: q[k] != o[i]
  {
    var rest := Without(o, i);
    assert forall k <- rest :: k in o && k != i && rest[k] == o[k];
  }

  lemma {:induction false} MatchOneMore(other: Fits, q: Assignment, k: nat, j: nat)
    requires IsMatching(other, q) && k !in q && other(k, j) && forall l <- q :: q[l] != j
    ensures IsMatching(other, With(q, k, j)) && |With(q, k, j)| == |q| + 1
  {
    assert With(q, k, j).Keys == q.Keys + {k};
  }

  lemma {:induction false} RenameOneMore(o: Assignment, numbers: map<nat, nat>, i: nat, q: Assignment)
    requires i in o && i in numbers && IsRenamed(Without(o, i), numbers, q)
    ensures IsRenamed(o, numbers, With(q, numbers[i], o[i]))
  {
    var rest, p := Without(o, i), With(q, numbers[i], o[i]);
    forall k <- p ensures exists h :: h in o && h in numbers && numbers[h] == k && p[k] == o[h] {
      if k != numbers[i] {
        var h :| h in rest && h in numbers && numbers[h] == k && q[k] == rest[h];
        assert h in o && o[h] == rest[h];
      }
    }
  }

  ghost function KeysUpTo(n: nat): (keys: set<nat>)
    ensures |keys| == n && forall i: nat :: i in keys <==> i < n
  {
    if n == 0 then {} else KeysUpTo(n - 1) + {n - 1}
  }

  lemma {:induction false} FewerKeys(keys: set<nat>, n: nat)
    requires keys <= KeysUpTo(n) && !(KeysUpTo(n) <= keys)
    ensures |keys| < n
  {
    SubsetSize(keys, KeysUpTo(n));
  }

  /** Pinned labels only accept the alerts at their own positions, and nothing else below `n` is accepted. */
  ghost predicate OwnOnly(fits: Fits, n: nat, pinned: set<nat>) {
    forall i: nat, j: nat | fits(i, j) :: i < n && (j < n ==> j in pinned) && (i in pinned ==> j < n)
  }

  /** More labels than alerts cannot all take one of them. */
  lemma {:induction false} TooMany(fits: Fits, m: Assignment, keys: set<nat>, taken: set<nat>)
    requires IsMatching(fits, m) && |keys| > |taken|
    ensures !(keys <= Into(m, taken))
  {
    LabelsInto(fits, m, taken);
    if keys <= Into(m, taken) {
      SubsetSize(keys, Into(m, taken));
    }
  }

  lemma {:induction false} AllPinned(fits: Fits, m: Assignment, n: nat, pinned: set<nat>, u: nat)
    requires IsMatching(fits, m) && OwnOnly(fits, n, pinned) && u in m && m[u] < n && pinned <= m.Keys
    ensures pinned + {u} <= Into(m, pinned)
  {
    forall i <- pinned + {u} ensures i in Into(m, pinned) {
      StaysPinned(fits, m, n, pinned, i);
    }
  }

  /** With a label before a pinned one that would take any of its alerts, some label gets nothing. */
  lemma {:induction false} Starved(fits: Fits, m: Assignment, n: nat, pinned: set<nat>, u: nat, p: nat)
    requires IsGreedy(fits, m) && OwnOnly(fits, n, pinned) && u < p && u !in pinned && p in pinned
    requires pinned <= KeysUpTo(n) && forall j: nat | fits(p, j) :: fits(u, j)
    ensures |m| < n
  {
    forall i <- m ensures i < n { assert fits(i, m[i]); }
    if pinned <= m.Keys {
      TakesFirst(fits, m, u, p);
      AllPinned(fits, m, n, pinned, u);
      TooMany(fits, m, pinned + {u}, pinned);
    }
    FewerKeys(m.Keys, n);
    assert |m.Keys| == |m|;
  }

  lemma {:induction false} StaysPinned(fits: Fits, m: Assignment, n: nat, pinned: set<nat>, i: nat)
    requires IsMatching(fits, m) && i in m && (i in pinned || m[i] < n)
    requires OwnOnly(fits, n, pinned)
    ensures i in Into(m, pinned)
  {
    assert fits(i, m[i]);
  }

  /** A label takes an alert no later than the one a later label takes, if it fits. */
  lemma {:induction false} TakesFirst(fits: Fits, m: Assignment, u: nat, p: nat)
    requires IsGreedy(fits, m) && u < p && p in m && fits(u, m[p])
    ensures u in m && m[u] <= m[p]
  {
    assert !TakenBefore(m, u, m[p]);
  }

  // ----- What is left over -----

  /** The positions below `n` that are not used, in order. */
  ghost function Unused(n: nat, used: set<nat>): seq<nat> {
    if n == 0 then [] else Unused(n - 1, used) + if n - 1 in used then [] else [n - 1]
  }

  lemma {:induction false} UnusedAre(n: nat, used: set<nat>)
    ensures forall x | 0 <= x < |Unused(n, used)| :: Unused(n, used)[x] < n && Unused(n, used)[x] !in used
    ensures forall j: nat | j < n && j !in used :: j in Unused(n, used)
    ensures forall x, y | 0 <= x < y < |Unused(n, used)| :: Unused(n, used)[x] < Unused(n, used)[y]
    decreases n
  {
    if n > 0 { UnusedAre(n - 1, used); }
  }

  /** Using one more position takes it out of the list. */
  lemma {:induction false} UseOne(n: nat, used: set<nat>, x: nat, j: nat)
    requires x < |Unused(n, used)| && Unused(n, used)[x] == j
    ensures j < n && Unused(n, used + {j}) == Unused(n, used)[..x] + Unused(n, used)[x + 1..]
    decreases n
  {
    var before := Unused(n - 1, used);
    var tail: seq<nat> := if n - 1 in used then [] else [n - 1];
    assert Unused(n, used) == before + tail;
    if x < |before| {
      UseOne(n - 1, used, x, j);
      assert (before + tail)[..x] == before[..x] && (before + tail)[x + 1..] == before[x + 1..] + tail;
    } else {
      UnusedStays(n - 1, used, n - 1);
      assert (before + tail)[..x] == before && (before + tail)[x + 1..] == [];
    }
  }

  lemma {:induction false} UnusedStays(n: nat, used: set<nat>, j: nat)
    requires n <= j
    ensures Unused(n, used + {j}) == Unused(n, used)
    decreases n
  {
    if n > 0 { UnusedStays(n - 1, used, j); }
  }

  ghost function Below(keys: set<nat>, n: nat): (r: set<nat>)
    ensures forall i: nat :: i in r <==> i in keys && i < n
  {
    if n == 0 then {} else Below(keys, n - 1) + if n - 1 in keys then {n - 1} else {}
  }

  lemma {:induction false} UnusedSize(n: nat, used: set<nat>)
    ensures |Unused(n, used)| + |Below(used, n)| == n
    decreases n
  {
    if n > 0 { UnusedSize(n - 1, used); }
  }
}
