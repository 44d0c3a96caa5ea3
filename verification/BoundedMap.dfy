/**
 A map bounded to a number of distinct keys, evicting from a queue of insertions whose
 entries are deleted lazily: taking a key leaves its queue entry behind.
 */
module BoundedMap {
  import opened Common
  import opened Sequences

  datatype Content<K, V> = Content(entries: map<K, V>, order: seq<K>)

  /** At most `capacity` keys (when bounded), each of them queued. */
  ghost predicate Inv<K, V>(capacity: nat, s: Content<K, V>) {
    && (capacity > 0 ==> |s.entries| <= capacity)
    && forall k <- s.entries :: k in s.order
  }

  /** Popping the queue until a live key is evicted, if the map is full. */
  ghost function Evicted<K, V>(capacity: nat, s: Content<K, V>): Content<K, V>
    decreases |s.order|
  {
    if capacity == 0 || |s.entries| < capacity || s.order == [] then s
    else if s.order[0] in s.entries then Content(s.entries - {s.order[0]}, s.order[1..])
    else Evicted(capacity, s.(order := s.order[1..]))
  }

  ghost function AfterPut<K, V>(capacity: nat, s: Content<K, V>, key: K, value: V): Content<K, V> {
    if key in s.entries then s.(entries := s.entries[key := value]) else
    var room := Evicted(capacity, s);
    Content(room.entries[key := value], room.order + [key])
  }

  ghost function AfterTake<K, V>(s: Content<K, V>, key: K): Content<K, V> {
    s.(entries := s.entries - {key})
  }

  ghost function AfterEdit<K, V>(s: Content<K, V>, key: K, value: V): Content<K, V> {
    if key in s.entries then s.(entries := s.entries[key := value]) else s
  }

  class BoundedFifoMap<K(==), V> {
    const capacity: nat
    var entries: map<K, V>
    var order: seq<K>

    ghost function View(): Content<K, V>
      reads this
    {
      Content(entries, order)
    }

    ghost predicate Valid()
      reads this
    {
      Inv(capacity, View())
    }

    constructor (capacity: nat)
      ensures this.capacity == capacity && View() == Content(map[], []) && Valid()
    {
      this.capacity := capacity;
      entries := map[];
      order := [];
    }

    /** Insert or overwrite; a new key evicts the oldest first when the map is full. */
    method Put(key: K, value: V)
      requires Valid()
      modifies this
      ensures View() == AfterPut(capacity, old(View()), key, value) && Valid()
    {
      ghost var s := View();
      PutKeepsInv(capacity, s, key, value);
      if key !in entries {
        EvictToFit();
        order := order + [key];
      }
      entries := entries[key := value];
    }

    method Get(key: K) returns (value: Option<V>)
      ensures value == if key in entries then Some(entries[key]) else None
    {
      value := if key in entries then Some(entries[key]) else None;
    }

    /** Overwrite through a mutable reference: the queue is not touched. */
    method Edit(key: K, value: V)
      requires Valid()
      modifies this
      ensures View() == AfterEdit(old(View()), key, value) && Valid()
    {
      if key in entries {
        entries := entries[key := value];
        assert entries.Keys == old(entries).Keys;
      }
    }

    method Take(key: K) returns (value: Option<V>)
      requires Valid()
      modifies this
      ensures value == if key in old(entries) then Some(old(entries)[key]) else None
      ensures View() == AfterTake(old(View()), key) && Valid()
    {
      TakeKeepsInv(capacity, View(), key);
      value := if key in entries then Some(entries[key]) else None;
      entries := entries - {key};
    }

    method EvictToFit()
      modifies this
      ensures View() == Evicted(capacity, old(View()))
    {
      if capacity == 0 {
        return;
      }
      while |entries| >= capacity
        invariant Evicted(capacity, View()) == Evicted(capacity, old(View()))
        decreases |order|
      {
        if order == [] {
          break;
        }
        var oldest := order[0];
        order := order[1..];
        if oldest in entries {
          entries := entries - {oldest};
          return;
        }
      }
    }
  }

  // ----- Bounds and eviction -----

  lemma {:induction false} SizeWithout<K, V>(m: map<K, V>, k: K)
    requires k in m
    ensures |m - {k}| == |m| - 1
  {
    assert (m - {k}).Keys == m.Keys - {k};
  }

  lemma {:induction false} SizeWith<K, V>(m: map<K, V>, k: K, v: V)
    requires k !in m
    ensures |m[k := v]| == |m| + 1
  {
    assert m[k := v].Keys == m.Keys + {k};
  }

  /** The live keys in the order of their first queue entries: the order evictions follow. */
  ghost function FirstLive<K>(live: set<K>, order: seq<K>): (r: seq<K>)
    ensures forall k <- r :: k in live && k in order
    ensures forall k <- live :: k in order ==> k in r
    decreases |order|
  {
    if order == [] then []
    else if order[0] in live then [order[0]] + FirstLive(live - {order[0]}, order[1..])
    else FirstLive(live, order[1..])
  }

  /** The live keys in the order of their last queue entries: the order they were inserted in. */
  ghost function LastLive<K>(live: set<K>, order: seq<K>): (r: seq<K>)
    ensures forall k <- r :: k in live && k in order
    ensures forall k <- live :: k in order ==> k in r
    decreases |order|
  {
    if order == [] then [] else
    var last := order[|order| - 1];
    assert order == order[..|order| - 1] + [last];
    if last in live then LastLive(live - {last}, order[..|order| - 1]) + [last]
    else LastLive(live, order[..|order| - 1])
  }

  /** A full map loses exactly its first live key in queue order; a map with room loses nothing. */
  lemma {:induction false} EvictsOne<K, V>(capacity: nat, s: Content<K, V>)
    requires Inv(capacity, s)
    ensures var r := Evicted(capacity, s);
            && (forall k <- r.entries :: k in r.order)
            && (capacity > 0 ==> |r.entries| < capacity)
            && (if capacity > 0 && |s.entries| == capacity then
                  var first := FirstLive(s.entries.Keys, s.order);
                  && first != [] && r.entries == s.entries - {first[0]}
                  && FirstLive(r.entries.Keys, r.order) == first[1..]
                else r == s)
    decreases |s.order|
  {
    if capacity > 0 && |s.entries| == capacity {
      var k :| k in s.entries;
      var oldest, rest := s.order[0], s.order[1..];
      if oldest in s.entries {
        SizeWithout(s.entries, oldest);
        assert (s.entries - {oldest}).Keys == s.entries.Keys - {oldest};
      } else {
        EvictsOne(capacity, s.(order := rest));
      }
    }
  }

  lemma {:induction false} PutKeepsInv<K, V>(capacity: nat, s: Content<K, V>, key: K, value: V)
    requires Inv(capacity, s)
    ensures Inv(capacity, AfterPut(capacity, s, key, value))
  {
    if key in s.entries {
      assert s.entries[key := value].Keys == s.entries.Keys;
    } else {
      EvictsOne(capacity, s);
      SizeWith(Evicted(capacity, s).entries, key, value);
    }
  }

  lemma {:induction false} TakeKeepsInv<K, V>(capacity: nat, s: Content<K, V>, key: K)
    requires Inv(capacity, s)
    ensures Inv(capacity, AfterTake(s, key))
  {
    if key in s.entries { SizeWithout(s.entries, key); }
    else { assert s.entries - {key} == s.entries; }
  }

  // ----- Against a plain insertion-ordered map -----

  /** An insertion-ordered map that really forgets what it drops. */
  datatype Fifo<K, V> = Fifo(keys: seq<K>, values: map<K, V>)

  ghost function Remove<K>(s: seq<K>, k: K): (r: seq<K>)
    ensures forall x <- r :: x in s && x != k
    ensures forall x <- s :: x != k ==> x in r
  {
    if s == [] then [] else if s[0] == k then Remove(s[1..], k) else [s[0]] + Remove(s[1..], k)
  }

  datatype Op<K, V> = PutOp(key: K, value: V) | TakeOp(key: K) | EditOp(key: K, value: V)

  ghost function Do<K, V>(capacity: nat, s: Content<K, V>, op: Op<K, V>): Content<K, V> {
    match op
    case PutOp(k, v) => AfterPut(capacity, s, k, v)
    case TakeOp(k) => AfterTake(s, k)
    case EditOp(k, v) => AfterEdit(s, k, v)
  }

  ghost function DoFifo<K, V>(capacity: nat, f: Fifo<K, V>, op: Op<K, V>): Fifo<K, V> {
    match op
    case PutOp(k, v) =>
      if k in f.values then f.(values := f.values[k := v])
      else if capacity > 0 && |f.keys| >= capacity then
        Fifo(f.keys[1..] + [k], (f.values - {f.keys[0]})[k := v])
      else Fifo(f.keys + [k], f.values[k := v])
    case TakeOp(k) => Fifo(Remove(f.keys, k), f.values - {k})
    case EditOp(k, v) => if k in f.values then f.(values := f.values[k := v]) else f
  }

  /** The queue's two orders agree, and are the FIFO's. */
  ghost predicate Refines<K, V>(s: Content<K, V>, f: Fifo<K, V>) {
    && s.entries == f.values
    && FirstLive(s.entries.Keys, s.order) == f.keys
    && LastLive(s.entries.Keys, s.order) == f.keys
  }

  lemma {:induction false} FirstLiveNoDup<K>(live: set<K>, order: seq<K>)
    ensures NoDup(FirstLive(live, order))
    decreases |order|
  {
    if order != [] {
      if order[0] in live { FirstLiveNoDup(live - {order[0]}, order[1..]); }
      else { FirstLiveNoDup(live, order[1..]); }
    }
  }

  lemma {:induction false} FirstLiveSize<K>(live: set<K>, order: seq<K>)
    requires forall k <- live :: k in order
    ensures |FirstLive(live, order)| == |live|
    decreases |order|
  {
    if order == [] {
      assert live == {};
    } else if order[0] in live {
      FirstLiveSize(live - {order[0]}, order[1..]);
    } else {
      FirstLiveSize(live, order[1..]);
    }
  }

  lemma {:induction false} RemoveAbsent<K>(s: seq<K>, k: K)
    requires k !in s
    ensures Remove(s, k) == s
    decreases |s|
  {
    if s != [] { RemoveAbsent(s[1..], k); }
  }

  lemma {:induction false} RemoveSnoc<K>(s: seq<K>, x: K, k: K)
    ensures Remove(s + [x], k) == Remove(s, k) + if x == k then [] else [x]
    decreases |s|
  {
    if s == [] {
      assert [] + [x] == [x] && [x][1..] == [];
    } else {
      assert (s + [x])[1..] == s[1..] + [x];
      RemoveSnoc(s[1..], x, k);
    }
  }

  lemma {:induction false} FirstLiveWithout<K>(live: set<K>, order: seq<K>, k: K)
    ensures FirstLive(live - {k}, order) == Remove(FirstLive(live, order), k)
    decreases |order|
  {
    if order != [] {
      var o, rest := order[0], order[1..];
      if o in live {
        FirstLiveWithout(live - {o}, rest, k);
        if o == k {
          RemoveAbsent(FirstLive(live - {o}, rest), k);
        } else {
          assert live - {k} - {o} == live - {o} - {k};
        }
      } else {
        FirstLiveWithout(live, rest, k);
      }
    }
  }

  lemma {:induction false} LastLiveWithout<K>(live: set<K>, order: seq<K>, k: K)
    ensures LastLive(live - {k}, order) == Remove(LastLive(live, order), k)
    decreases |order|
  {
    if order != [] {
      var o, rest := order[|order| - 1], order[..|order| - 1];
      if o in live {
        LastLiveWithout(live - {o}, rest, k);
        RemoveSnoc(LastLive(live - {o}, rest), o, k);
        if o == k {
          RemoveAbsent(LastLive(live - {o}, rest), k);
        } else {
          assert live - {k} - {o} == live - {o} - {k};
        }
      } else {
        LastLiveWithout(live, rest, k);
      }
    }
  }

  /** Popping a dead entry off the front changes neither order. */
  lemma {:induction false} LastLivePop<K>(live: set<K>, order: seq<K>)
    requires order != [] && order[0] !in live
    ensures LastLive(live, order) == LastLive(live, order[1..])
    decreases |order|
  {
    if |order| > 1 {
      var o, rest := order[|order| - 1], order[..|order| - 1];
      assert rest[1..] == order[1..][..|order| - 2];
      LastLivePop(if o in live then live - {o} else live, rest);
    }
  }

  /** Inserting a key puts it last in insertion order, queued before or not. */
  lemma {:induction false} LastLivePut<K>(live: set<K>, order: seq<K>, k: K)
    requires k !in live
    ensures LastLive(live + {k}, order + [k]) == LastLive(live, order) + [k]
  {
    assert (order + [k])[..|order|] == order && live + {k} - {k} == live;
  }

  /** The first place in the queue where `k` stands. */
  ghost function IndexOf<K>(order: seq<K>, k: K): (i: nat)
    requires k in order
    ensures i < |order| && order[i] == k && k !in order[..i]
  {
    if order[0] == k then 0 else 1 + IndexOf(order[1..], k)
  }

  /** No live key stands behind a stale entry of `k`. */
  ghost predicate NotOvertaken<K>(live: set<K>, order: seq<K>, k: K) {
    k in order ==> forall x <- live :: x in order[..IndexOf(order, k)]
  }

  /** A stale entry of `k` at the front puts it first. */
  lemma {:induction false} FirstLivePutAtStale<K>(live: set<K>, rest: seq<K>, k: K)
    requires k !in live && forall x <- live :: x in [k] + rest
    ensures FirstLive(live + {k}, [k] + rest + [k]) == FirstLive(live, [k] + rest) + [k] <==> live == {}
  {
    var order := [k] + rest;
    assert (order + [k])[1..] == rest + [k] && (order + [k])[0] == k && order[1..] == rest;
    assert live + {k} - {k} == live;
    var now := FirstLive(live, order);
    assert FirstLive(live + {k}, order + [k]) == [k] + FirstLive(live, rest + [k]);
    if live == {} {
      DeadQueue(rest + [k]);
      DeadQueue(order);
    } else {
      var x :| x in live;
      assert x in now;
      assert (now + [k])[0] == now[0] && now[0] in live;
    }
  }

  lemma {:induction false} IndexOfLater<K>(o: K, rest: seq<K>, k: K)
    requires o != k && k in rest
    ensures k in [o] + rest && ([o] + rest)[..IndexOf([o] + rest, k)] == [o] + rest[..IndexOf(rest, k)]
  {
    assert ([o] + rest)[1..] == rest;
  }

  lemma {:induction false} NotOvertakenStep<K>(live: set<K>, o: K, rest: seq<K>, k: K)
    requires o != k
    ensures NotOvertaken(live, [o] + rest, k) <==> NotOvertaken(live - {o}, rest, k)
  {
    if k in rest {
      IndexOfLater(o, rest, k);
      var i := IndexOf(rest, k);
      assert forall x :: x in [o] + rest[..i] <==> x == o || x in rest[..i];
    }
  }

  /**
   Inserting a key puts it last in eviction order exactly when it is not queued, or no
   live key stands behind its stale entry.
   */
  lemma {:induction false} FirstLivePut<K>(live: set<K>, order: seq<K>, k: K)
    requires k !in live && forall x <- live :: x in order
    ensures FirstLive(live + {k}, order + [k]) == FirstLive(live, order) + [k] <==> NotOvertaken(live, order, k)
    decreases |order|
  {
    if order == [] {
      assert order + [k] == [k] && live + {k} - {k} == live && [k][1..] == [];
      assert FirstLive(live + {k}, [k]) == [k] + FirstLive(live, []);
    } else {
      var o, rest := order[0], order[1..];
      assert order == [o] + rest;
      if o == k {
        FirstLivePutAtStale(live, rest, k);
        assert order[..IndexOf(order, k)] == [];
      } else {
        FirstLivePutLater(live, o, rest, k);
        FirstLivePut(live - {o}, rest, k);
        NotOvertakenStep(live, o, rest, k);
      }
    }
  }

  lemma {:induction false} FirstLivePutLater<K>(live: set<K>, o: K, rest: seq<K>, k: K)
    requires k !in live && o != k
    ensures var order, live' := [o] + rest, live - {o};
            FirstLive(live + {k}, order + [k]) == FirstLive(live, order) + [k] <==>
            FirstLive(live' + {k}, rest + [k]) == FirstLive(live', rest) + [k]
  {
    var order, live' := [o] + rest, live - {o};
    assert (order + [k])[1..] == rest + [k] && (order + [k])[0] == o && order[1..] == rest;
    var a, b := FirstLive(live' + {k}, rest + [k]), FirstLive(live', rest);
    if o in live {
      assert live + {k} - {o} == live' + {k};
      assert FirstLive(live + {k}, order + [k]) == [o] + a;
      assert FirstLive(live, order) == [o] + b;
      assert [o] + b + [k] == [o] + (b + [k]);
      SameAfterHead(o, a, b + [k]);
    } else {
      assert live' == live;
    }
  }

  lemma {:induction false} SameAfterHead<K>(o: K, a: seq<K>, b: seq<K>)
    ensures [o] + a == [o] + b <==> a == b
  {
    assert ([o] + a)[1..] == a && ([o] + b)[1..] == b;
  }

  lemma {:induction false} DeadQueue<K>(order: seq<K>)
    ensures FirstLive({}, order) == []
    decreases |order|
  {
    if order != [] { DeadQueue(order[1..]); }
  }

  /** An eviction takes the oldest key exactly when the queue's first live key is the oldest. */
  lemma {:induction false} EvictionIsFifo<K, V>(capacity: nat, s: Content<K, V>)
    requires Inv(capacity, s) && capacity > 0 && |s.entries| == capacity
    ensures var first, last := FirstLive(s.entries.Keys, s.order), LastLive(s.entries.Keys, s.order);
            && first != [] && last != []
            && (Evicted(capacity, s).entries == s.entries - {last[0]} <==> first[0] == last[0])
  {
    EvictsOne(capacity, s);
    var first, last := FirstLive(s.entries.Keys, s.order), LastLive(s.entries.Keys, s.order);
    assert first[0] in s.entries && first[0] in last;
    assert last[0] in s.entries;
    if first[0] != last[0] {
      assert last[0] in s.entries - {first[0]};
    }
  }

  lemma {:induction false} EvictKeepsLast<K, V>(capacity: nat, s: Content<K, V>)
    requires Inv(capacity, s)
    ensures var r := Evicted(capacity, s);
            LastLive(r.entries.Keys, r.order) ==
            if capacity > 0 && |s.entries| == capacity
            then Remove(LastLive(s.entries.Keys, s.order), FirstLive(s.entries.Keys, s.order)[0])
            else LastLive(s.entries.Keys, s.order)
    decreases |s.order|
  {
    EvictsOne(capacity, s);
    if capacity > 0 && |s.entries| == capacity {
      var oldest, rest := s.order[0], s.order[1..];
      var live := s.entries.Keys;
      if oldest in s.entries {
        assert (s.entries - {oldest}).Keys == live - {oldest};
        LastLiveWithout(live, s.order, oldest);
        LastLivePop(live - {oldest}, s.order);
      } else {
        LastLivePop(live, s.order);
        EvictKeepsLast(capacity, s.(order := rest));
      }
    }
  }

  lemma {:induction false} RemoveHead<K>(s: seq<K>)
    requires s != [] && NoDup(s)
    ensures Remove(s, s[0]) == s[1..]
  {
    RemoveAbsent(s[1..], s[0]);
  }

  /** Eviction drops the FIFO's head, when full, and nothing otherwise. */
  lemma {:induction false} EvictRefines<K, V>(capacity: nat, s: Content<K, V>, f: Fifo<K, V>)
    requires Inv(capacity, s) && Refines(s, f)
    ensures var r := Evicted(capacity, s);
            && |f.keys| == |s.entries|
            && (forall k <- r.entries :: k in r.order) && (forall k <- r.order :: k in s.order)
            && Refines(r, if capacity > 0 && |f.keys| >= capacity
                          then Fifo(f.keys[1..], f.values - {f.keys[0]}) else f)
  {
    var live := s.entries.Keys;
    EvictsOne(capacity, s);
    EvictKeepsLast(capacity, s);
    EvictShortens(capacity, s);
    FirstLiveSize(live, s.order);
    FirstLiveNoDup(live, s.order);
    if capacity > 0 && |s.entries| == capacity { RemoveHead(f.keys); }
  }

  lemma {:induction false} AppendRefinesIff<K, V>(r: Content<K, V>, g: Fifo<K, V>, k: K, v: V)
    requires Refines(r, g) && (forall x <- r.entries :: x in r.order) && k !in r.entries
    ensures Refines(Content(r.entries[k := v], r.order + [k]), Fifo(g.keys + [k], g.values[k := v])) <==>
            NotOvertaken(r.entries.Keys, r.order, k)
  {
    var live := r.entries.Keys;
    assert r.entries[k := v].Keys == live + {k};
    FirstLivePut(live, r.order, k);
    LastLivePut(live, r.order, k);
  }

  /** After making room, no live key stands behind a stale entry of the key to be put. */
  ghost predicate GoesLast<K, V>(capacity: nat, s: Content<K, V>, k: K) {
    var room := Evicted(capacity, s);
    NotOvertaken(room.entries.Keys, room.order, k)
  }

  /** A put of a new key is the FIFO's exactly when that key is not overtaken in the queue. */
  lemma {:induction false} PutRefinesIff<K, V>(capacity: nat, s: Content<K, V>, f: Fifo<K, V>, k: K, v: V)
    requires Inv(capacity, s) && Refines(s, f) && k !in s.entries
    ensures Refines(AfterPut(capacity, s, k, v), DoFifo(capacity, f, PutOp(k, v))) <==> GoesLast(capacity, s, k)
  {
    EvictRefines(capacity, s, f);
    var r := Evicted(capacity, s);
    var g := if capacity > 0 && |f.keys| >= capacity then Fifo(f.keys[1..], f.values - {f.keys[0]}) else f;
    assert k !in r.entries by { assert r.entries == g.values; }
    AppendRefinesIff(r, g, k, v);
  }

  /** The operation is no put of a new key that would come before a live one. */
  ghost predicate InOrder<K, V>(capacity: nat, s: Content<K, V>, op: Op<K, V>) {
    op.PutOp? && op.key !in s.entries ==> GoesLast(capacity, s, op.key)
  }

  /** One operation is the FIFO's exactly when it is no put out of order. */
  lemma {:induction false} OpRefinesIff<K, V>(capacity: nat, s: Content<K, V>, f: Fifo<K, V>, op: Op<K, V>)
    requires Inv(capacity, s) && Refines(s, f)
    ensures Refines(Do(capacity, s, op), DoFifo(capacity, f, op)) <==> InOrder(capacity, s, op)
  {
    var live := s.entries.Keys;
    match op
    case TakeOp(k) =>
      assert (s.entries - {k}).Keys == live - {k};
      FirstLiveWithout(live, s.order, k);
      LastLiveWithout(live, s.order, k);
    case EditOp(k, v) =>
      if k in s.entries { assert s.entries[k := v].Keys == live; }
    case PutOp(k, v) =>
      if k in s.entries { assert s.entries[k := v].Keys == live; }
      else { PutRefinesIff(capacity, s, f, k, v); }
  }

  lemma {:induction false} EvictShortens<K, V>(capacity: nat, s: Content<K, V>)
    ensures forall k <- Evicted(capacity, s).order :: k in s.order
    decreases |s.order|
  {
    if !(capacity == 0 || |s.entries| < capacity || s.order == []) && s.order[0] !in s.entries {
      EvictShortens(capacity, s.(order := s.order[1..]));
    }
  }

  ghost function Run<K, V>(capacity: nat, s: Content<K, V>, ops: seq<Op<K, V>>): Content<K, V>
    decreases |ops|
  {
    if ops == [] then s else Run(capacity, Do(capacity, s, ops[0]), ops[1..])
  }

  ghost function RunFifo<K, V>(capacity: nat, f: Fifo<K, V>, ops: seq<Op<K, V>>): Fifo<K, V>
    decreases |ops|
  {
    if ops == [] then f else RunFifo(capacity, DoFifo(capacity, f, ops[0]), ops[1..])
  }

  /** No operation of the run is a put out of order. */
  ghost predicate NeverOvertaken<K, V>(capacity: nat, s: Content<K, V>, ops: seq<Op<K, V>>)
    decreases |ops|
  {
    ops == [] || (InOrder(capacity, s, ops[0]) && NeverOvertaken(capacity, Do(capacity, s, ops[0]), ops[1..]))
  }

  lemma {:induction false} OpKeepsInv<K, V>(capacity: nat, s: Content<K, V>, op: Op<K, V>)
    requires Inv(capacity, s)
    ensures Inv(capacity, Do(capacity, s, op))
  {
    match op
    case PutOp(k, v) => PutKeepsInv(capacity, s, k, v);
    case TakeOp(k) => TakeKeepsInv(capacity, s, k);
    case EditOp(k, v) => if k in s.entries { assert s.entries[k := v].Keys == s.entries.Keys; }
  }

  /** Over every run of operations the map stays within its capacity with every live key queued. */
  lemma {:induction false} RunKeepsInv<K, V>(capacity: nat, s: Content<K, V>, ops: seq<Op<K, V>>)
    requires Inv(capacity, s)
    ensures Inv(capacity, Run(capacity, s, ops))
    decreases |ops|
  {
    if ops != [] {
      OpKeepsInv(capacity, s, ops[0]);
      RunKeepsInv(capacity, Do(capacity, s, ops[0]), ops[1..]);
    }
  }

  /** After each of its operations, the map is the plain insertion-ordered one. */
  ghost predicate AlwaysRefines<K, V>(capacity: nat, s: Content<K, V>, f: Fifo<K, V>, ops: seq<Op<K, V>>) {
    forall n | 0 <= n <= |ops| :: Refines(Run(capacity, s, ops[..n]), RunFifo(capacity, f, ops[..n]))
  }

  lemma {:induction false} AlwaysRefinesStep<K, V>(capacity: nat, s: Content<K, V>, f: Fifo<K, V>, ops: seq<Op<K, V>>)
    requires ops != [] && Refines(s, f)
    ensures AlwaysRefines(capacity, s, f, ops) <==>
            AlwaysRefines(capacity, Do(capacity, s, ops[0]), DoFifo(capacity, f, ops[0]), ops[1..])
  {
    var s', f', rest := Do(capacity, s, ops[0]), DoFifo(capacity, f, ops[0]), ops[1..];
    assert ops[..0] == [];
    forall n | 0 <= n <= |rest|
      ensures Run(capacity, s', rest[..n]) == Run(capacity, s, ops[..n + 1])
      ensures RunFifo(capacity, f', rest[..n]) == RunFifo(capacity, f, ops[..n + 1])
    {
      assert ops[..n + 1][1..] == rest[..n];
    }
    if AlwaysRefines(capacity, s', f', rest) {
      forall n | 0 <= n <= |ops| ensures Refines(Run(capacity, s, ops[..n]), RunFifo(capacity, f, ops[..n])) {
        if n > 0 {
          assert Refines(Run(capacity, s', rest[..n - 1]), RunFifo(capacity, f', rest[..n - 1]));
        }
      }
    }
  }

  /**
   Over every run the map is first-in first-out throughout exactly when no put of a new key
   finds a live key behind a stale entry of its own.
   */
  lemma {:induction false} RunRefinesFifoIff<K, V>(capacity: nat, s: Content<K, V>, f: Fifo<K, V>, ops: seq<Op<K, V>>)
    requires Inv(capacity, s) && Refines(s, f)
    ensures AlwaysRefines(capacity, s, f, ops) <==> NeverOvertaken(capacity, s, ops)
    decreases |ops|
  {
    if ops == [] {
      assert ops[..0] == [];
    } else {
      AlwaysRefinesStep(capacity, s, f, ops);
      OpRefinesIff(capacity, s, f, ops[0]);
      OpKeepsInv(capacity, s, ops[0]);
      var s', f', rest := Do(capacity, s, ops[0]), DoFifo(capacity, f, ops[0]), ops[1..];
      if Refines(s', f') {
        RunRefinesFifoIff(capacity, s', f', rest);
      } else {
        assert rest[..0] == [];
        assert !Refines(Run(capacity, s', rest[..0]), RunFifo(capacity, f', rest[..0]));
      }
    }
  }

  lemma {:induction false} AfterStaleTake()
    ensures Refines(Content(map[2 := 20], [1, 2]), Fifo([2], map[2 := 20]))
  {
    var s := Content(map[2 := 20], [1, 2]);
    assert s.order[1..] == [2] && [2][1..] == [];
    assert s.entries.Keys == {2} && {2} - {2} == {};
    assert FirstLive({2}, [2]) == [2] + FirstLive({}, []);
    assert s.order[..1] == [1];
    assert LastLive({2}, [1, 2]) == LastLive({}, [1]) + [2];
    assert LastLive({}, [1]) == LastLive({}, [1][..0]);
  }

  lemma {:induction false} StaleRun(ops: seq<Op<int, int>>)
    requires ops == [PutOp(1, 11), PutOp(3, 30)]
    ensures Run(2, Content(map[2 := 20], [1, 2]), ops).entries == map[2 := 20, 3 := 30]
  {
    var s0, s1 := Content(map[2 := 20], [1, 2]), Content(map[2 := 20, 1 := 11], [1, 2, 1]);
    assert |map[2 := 20]| == 1;
    assert Do(2, s0, ops[0]) == s1;
    assert |s1.entries| == 2 by { assert s1.entries.Keys == {1, 2}; }
    assert Evicted(2, s1) == Content(map[2 := 20], [2, 1]);
    var s2 := Content(map[2 := 20, 3 := 30], [2, 1, 3]);
    assert Do(2, s1, ops[1]) == s2;
    assert ops[1..] == [ops[1]] && ops[1..][1..] == [];
    assert Run(2, s1, [ops[1]]) == Run(2, s2, []);
  }

  lemma {:induction false} FifoRun(ops: seq<Op<int, int>>)
    requires ops == [PutOp(1, 11), PutOp(3, 30)]
    ensures RunFifo(2, Fifo([2], map[2 := 20]), ops).values == map[1 := 11, 3 := 30]
  {
    var f0 := Fifo([2], map[2 := 20]);
    var f1 := DoFifo(2, f0, ops[0]);
    assert f1 == Fifo([2, 1], map[2 := 20, 1 := 11]);
    var f2 := DoFifo(2, f1, ops[1]);
    assert f2.values == map[1 := 11, 3 := 30];
    assert ops[1..] == [ops[1]] && ops[1..][1..] == [];
    assert RunFifo(2, f1, [ops[1]]) == RunFifo(2, f2, []);
  }

  /** A key taken and put again is evicted in place of an older one. */
  lemma {:induction false} StalePutBreaksFifo()
    ensures var s, f := Content(map[2 := 20], [1, 2]), Fifo([2], map[2 := 20]);
            var ops := [PutOp(1, 11), PutOp(3, 30)];
            && Refines(s, f)
            && Run(2, s, ops).entries == map[2 := 20, 3 := 30]
            && RunFifo(2, f, ops).values == map[1 := 11, 3 := 30]
  {
    var ops: seq<Op<int, int>> := [PutOp(1, 11), PutOp(3, 30)];
    AfterStaleTake();
    StaleRun(ops);
    FifoRun(ops);
  }

  // ----- How long the queue gets -----

  /** A new key is put although nothing need be evicted, behind a queue already as long as the map may get. */
  ghost predicate Overfills<K, V>(capacity: nat, s: Content<K, V>, op: Op<K, V>) {
    op.PutOp? && op.key !in s.entries && |s.entries| < capacity && |s.order| >= capacity
  }

  ghost predicate NeverOverfills<K, V>(capacity: nat, s: Content<K, V>, ops: seq<Op<K, V>>)
    decreases |ops|
  {
    ops == [] || (!Overfills(capacity, s, ops[0]) && NeverOverfills(capacity, Do(capacity, s, ops[0]), ops[1..]))
  }

  ghost predicate QueueStaysWithin<K, V>(capacity: nat, s: Content<K, V>, ops: seq<Op<K, V>>)
    decreases |ops|
  {
    |s.order| <= capacity && (ops == [] || QueueStaysWithin(capacity, Do(capacity, s, ops[0]), ops[1..]))
  }

  lemma {:induction false} EvictedQueue<K, V>(capacity: nat, s: Content<K, V>)
    requires Inv(capacity, s)
    ensures |Evicted(capacity, s).order| <= |s.order|
    ensures capacity > 0 && |s.entries| == capacity ==> |Evicted(capacity, s).order| < |s.order|
    decreases |s.order|
  {
    if capacity > 0 && |s.entries| == capacity {
      var k :| k in s.entries;
      assert s.order != [];
      if s.order[0] !in s.entries { EvictedQueue(capacity, s.(order := s.order[1..])); }
    }
  }

  /** Over every run the queue stays as short as the map exactly when no put overfills it. */
  lemma {:induction false} QueueStaysWithinIff<K, V>(capacity: nat, s: Content<K, V>, ops: seq<Op<K, V>>)
    requires capacity > 0 && Inv(capacity, s) && |s.order| <= capacity
    ensures QueueStaysWithin(capacity, s, ops) <==> NeverOverfills(capacity, s, ops)
    decreases |ops|
  {
    if ops != [] {
      EvictedQueue(capacity, s);
      OpKeepsInv(capacity, s, ops[0]);
      var next := Do(capacity, s, ops[0]);
      assert |next.order| <= capacity <==> !Overfills(capacity, s, ops[0]);
      if |next.order| <= capacity { QueueStaysWithinIff(capacity, next, ops[1..]); }
    }
  }

  /** The queue holds the live keys, each once, and nothing else. */
  ghost predicate Tidy<K, V>(s: Content<K, V>) {
    NoDup(s.order) && Elements(s.order) == s.entries.Keys
  }

  lemma {:induction false} TidyEviction<K, V>(capacity: nat, s: Content<K, V>)
    requires Tidy(s)
    ensures Tidy(Evicted(capacity, s))
  {}

  lemma {:induction false} TidySize<K, V>(s: Content<K, V>)
    requires Tidy(s)
    ensures |s.order| == |s.entries|
  {
    NoDupSize(s.order);
  }

  lemma {:induction false} TidyOp<K, V>(capacity: nat, s: Content<K, V>, op: Op<K, V>)
    requires Tidy(s) && !op.TakeOp?
    ensures Tidy(Do(capacity, s, op))
  {
    TidyEviction(capacity, s);
    match op
    case PutOp(k, v) =>
      if k !in s.entries { TidyPut(Evicted(capacity, s), k, v); EvictionAddsNothing(capacity, s, k); }
    case EditOp(k, v) =>
  }

  lemma {:induction false} EvictionAddsNothing<K, V>(capacity: nat, s: Content<K, V>, k: K)
    requires k !in s.entries
    ensures k !in Evicted(capacity, s).entries
    decreases |s.order|
  {
    if !(capacity == 0 || |s.entries| < capacity || s.order == []) && s.order[0] !in s.entries {
      EvictionAddsNothing(capacity, s.(order := s.order[1..]), k);
    }
  }

  lemma {:induction false} TidyPut<K, V>(s: Content<K, V>, k: K, v: V)
    requires Tidy(s)
    ensures k !in s.entries ==> Tidy(Content(s.entries[k := v], s.order + [k]))
  {
    if k !in s.entries {
      assert k !in Elements(s.order);
      assert Elements(s.order + [k]) == Elements(s.order) + {k};
    }
  }

  /** As long as nothing is taken the queue holds each live key once, so it is as long as the map. */
  lemma {:induction false} WithoutTakesQueueIsTidy<K, V>(capacity: nat, s: Content<K, V>, ops: seq<Op<K, V>>)
    requires Inv(capacity, s) && Tidy(s) && forall op <- ops :: !op.TakeOp?
    ensures var after := Run(capacity, s, ops);
            Tidy(after) && |after.order| == |after.entries| && (capacity > 0 ==> |after.order| <= capacity)
    decreases |ops|
  {
    if ops == [] {
      TidySize(s);
    } else {
      TidyOp(capacity, s, ops[0]);
      OpKeepsInv(capacity, s, ops[0]);
      WithoutTakesQueueIsTidy(capacity, Do(capacity, s, ops[0]), ops[1..]);
    }
  }

  /** The queue is not bounded: with the map empty it can be as long as one likes. */
  lemma {:induction false} QueueIsUnbounded(capacity: nat, n: nat) returns (ops: seq<Op<int, int>>)
    requires capacity > 0
    ensures var s := Run(capacity, Content(map[], []), ops);
            s.entries == map[] && |s.order| == n
  {
    ops := PutTake(n);
    PutTakeGrows(capacity, [], n);
  }

  ghost function PutTake(n: nat): seq<Op<int, int>> {
    if n == 0 then [] else [PutOp(0, 0), TakeOp(0)] + PutTake(n - 1)
  }

  lemma {:induction false} PutTakeGrows(capacity: nat, order: seq<int>, n: nat)
    requires capacity > 0
    ensures var s := Run(capacity, Content(map[], order), PutTake(n));
            s.entries == map[] && |s.order| == |order| + n
    decreases n
  {
    if n > 0 {
      var s0: Content<int, int> := Content(map[], order);
      var ops := PutTake(n);
      var s1 := Content(map[0 := 0], order + [0]);
      var s2: Content<int, int> := Content(map[], order + [0]);
      assert Do(capacity, s0, ops[0]) == s1;
      assert Do(capacity, s1, ops[1]) == s2;
      assert ops[1..][0] == ops[1] && ops[1..][1..] == PutTake(n - 1);
      assert Run(capacity, s0, ops) == Run(capacity, s1, ops[1..]);
      assert Run(capacity, s1, ops[1..]) == Run(capacity, s2, PutTake(n - 1));
      PutTakeGrows(capacity, order + [0], n - 1);
    }
  }
}
