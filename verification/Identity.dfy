/**
 The identity of a wired detector: its models sorted by role, and the length-prefixed bytes
 its digest is taken over. The hash itself is a parameter; nothing is claimed of collisions.
 */
module Identity {
  import opened Common
  import opened Sequences

  /** Bytes whose length fits the eight-byte prefix. */
  type Bytes = s: seq<Byte> | |s| < TWO_64

  // ----- Framing -----

  /** The low bytes of a number, most significant first. */
  function BigEndian(n: nat, k: nat): (s: seq<Byte>)
    ensures |s| == k
  {
    if k == 0 then [] else BigEndian(n / 256, k - 1) + [n % 256]
  }

  function Pow256(k: nat): (p: nat)
    ensures p > 0
  {
    if k == 0 then 1 else 256 * Pow256(k - 1)
  }

  lemma {:induction false} BigEndianIsInjective(a: nat, b: nat, k: nat)
    requires a < Pow256(k) && b < Pow256(k) && BigEndian(a, k) == BigEndian(b, k)
    ensures a == b
    decreases k
  {
    if k > 0 {
      assert BigEndian(a, k)[..k - 1] == BigEndian(a / 256, k - 1) && BigEndian(b, k)[..k - 1] == BigEndian(b / 256, k - 1);
      assert BigEndian(a, k)[k - 1] == a % 256 && BigEndian(b, k)[k - 1] == b % 256;
      BigEndianIsInjective(a / 256, b / 256, k - 1);
    }
  }

  lemma {:induction false} EightBytesHoldALength()
    ensures Pow256(8) == TWO_64
  {
    assert Pow256(4) == 0x1_0000_0000;
    assert Pow256(6) == 0x1_0000_0000_0000;
  }

  /** A field: its length in eight bytes, then itself. */
  function Field(bytes: Bytes): seq<Byte> {
    BigEndian(|bytes|, 8) + bytes
  }

  /** A field at the front of a stream can be told from what follows. */
  lemma {:induction false} FieldReadsBack(a: Bytes, b: Bytes, r: seq<Byte>, s: seq<Byte>)
    requires Field(a) + r == Field(b) + s
    ensures a == b && r == s
  {
    var x, y := Field(a) + r, Field(b) + s;
    assert BigEndian(|a|, 8) == x[..8] == y[..8] == BigEndian(|b|, 8);
    EightBytesHoldALength();
    BigEndianIsInjective(|a|, |b|, 8);
    assert a == x[8..8 + |a|] == y[8..8 + |b|] == b;
    assert r == x[8 + |a|..] == y[8 + |b|..] == s;
  }

  ghost function Frames(fields: seq<Bytes>): seq<Byte> {
    if fields == [] then [] else Field(fields[0]) + Frames(fields[1..])
  }

  /** A stream of fields has one reading. */
  lemma {:induction false} FramesReadBack(xs: seq<Bytes>, ys: seq<Bytes>)
    requires Frames(xs) == Frames(ys)
    ensures xs == ys
    decreases |xs|
  {
    if xs != [] && ys != [] {
      FieldReadsBack(xs[0], ys[0], Frames(xs[1..]), Frames(ys[1..]));
      FramesReadBack(xs[1..], ys[1..]);
      assert xs == [xs[0]] + xs[1..] && ys == [ys[0]] + ys[1..];
    } else {
      FramesTakeRoom(xs);
      FramesTakeRoom(ys);
    }
  }

  lemma {:induction false} FramesTakeRoom(xs: seq<Bytes>)
    ensures |Frames(xs)| >= 8 || xs == []
  {}

  lemma {:induction false} FramesConcat(xs: seq<Bytes>, ys: seq<Bytes>)
    ensures Frames(xs + ys) == Frames(xs) + Frames(ys)
    decreases |xs|
  {
    if xs == [] {
      assert xs + ys == ys;
    } else {
      assert (xs + ys)[1..] == xs[1..] + ys;
      FramesConcat(xs[1..], ys);
    }
  }

  // ----- Wiring -----

  datatype Role = Supervised | Novelty {
    /** The order the models are sorted in. */
    function Rank(): nat {
      match this
      case Supervised => 0
      case Novelty => 1
    }

    /** "supervised" and "novelty". */
    function Name(): Bytes {
      match this
      case Supervised => [115, 117, 112, 101, 114, 118, 105, 115, 101, 100]
      case Novelty => [110, 111, 118, 101, 108, 116, 121]
    }
  }

  /** A served model: the content hashes of its descriptor and of its baseline. */
  datatype Slot = Slot(role: Role, descriptor: Bytes, baseline: Bytes)

  datatype Config = Config(valid: bool, canonical: Bytes)

  datatype Detector = Detector(config: Config, models: seq<Slot>)

  datatype WiringError = BadConfig | NoModels | DuplicateRole(role: Role)

  function Insert(s: Slot, sorted: seq<Slot>): seq<Slot> {
    if sorted == [] || s.role.Rank() < sorted[0].role.Rank() then [s] + sorted else [sorted[0]] + Insert(s, sorted[1..])
  }

  /** A stable sort by role. */
  function SortByRole(models: seq<Slot>): seq<Slot> {
    if models == [] then [] else Insert(models[|models| - 1], SortByRole(models[..|models| - 1]))
  }

  ghost predicate ByRole(models: seq<Slot>) {
    forall i, j | 0 <= i < j < |models| :: models[i].role.Rank() <= models[j].role.Rank()
  }

  ghost predicate OnePerRole(models: seq<Slot>) {
    forall i, j | 0 <= i < j < |models| :: models[i].role != models[j].role
  }

  lemma {:induction false} InsertKeeps(s: Slot, sorted: seq<Slot>)
    ensures multiset(Insert(s, sorted)) == multiset(sorted) + multiset{s}
    decreases |sorted|
  {
    if sorted != [] && s.role.Rank() >= sorted[0].role.Rank() {
      InsertKeeps(s, sorted[1..]);
      assert sorted == [sorted[0]] + sorted[1..];
    }
  }

  /** Whatever ranks no lower than some bound still does after an insertion. */
  lemma {:induction false} InsertBounded(s: Slot, sorted: seq<Slot>, low: nat)
    requires low <= s.role.Rank() && forall i | 0 <= i < |sorted| :: low <= sorted[i].role.Rank()
    ensures forall i | 0 <= i < |Insert(s, sorted)| :: low <= Insert(s, sorted)[i].role.Rank()
    decreases |sorted|
  {
    if sorted != [] && s.role.Rank() >= sorted[0].role.Rank() { InsertBounded(s, sorted[1..], low); }
  }

  lemma {:induction false} InsertSorts(s: Slot, sorted: seq<Slot>)
    requires ByRole(sorted)
    ensures ByRole(Insert(s, sorted))
    decreases |sorted|
  {
    if sorted != [] && s.role.Rank() >= sorted[0].role.Rank() {
      InsertSorts(s, sorted[1..]);
      InsertBounded(s, sorted[1..], sorted[0].role.Rank());
    }
  }

  lemma {:induction false} SortKeeps(models: seq<Slot>)
    ensures multiset(SortByRole(models)) == multiset(models) && ByRole(SortByRole(models))
    decreases |models|
  {
    if models != [] {
      var n := |models| - 1;
      SortKeeps(models[..n]);
      InsertKeeps(models[n], SortByRole(models[..n]));
      InsertSorts(models[n], SortByRole(models[..n]));
      assert models == models[..n] + [models[n]];
    }
  }

  /** In a sorted list a role that occurs twice occurs in neighbours. */
  lemma {:induction false} NeighboursTell(models: seq<Slot>)
    requires ByRole(models) && forall i | 0 <= i < |models| - 1 :: models[i].role != models[i + 1].role
    ensures OnePerRole(models)
  {
    forall i, j | 0 <= i < j < |models| ensures models[i].role != models[j].role {
      assert models[i].role.Rank() <= models[i + 1].role.Rank() <= models[j].role.Rank();
    }
  }

  /** Wire a detector from its config and its models, in whatever order they are listed. */
  method New(config: Config, models: seq<Slot>) returns (r: Result<Detector, WiringError>)
    ensures r.Ok? <==> config.valid && models != [] && OnePerRole(models)
    ensures r.Ok? ==> IsWired(r.value) && r.value.config == config && multiset(r.value.models) == multiset(models)
    ensures r.Err? ==>
              match r.error
              case BadConfig => !config.valid
              case NoModels => config.valid && models == []
              case DuplicateRole(role) => config.valid && exists i, j :: 0 <= i < j < |models| && models[i].role == role == models[j].role
  {
    if !config.valid {
      return Err(BadConfig);
    }
    if models == [] {
      return Err(NoModels);
    }
    var sorted := SortByRole(models);
    SortKeeps(models);
    for i := 0 to |sorted| - 1
      invariant forall k | 0 <= k < i :: sorted[k].role != sorted[k + 1].role
    {
      if sorted[i].role == sorted[i + 1].role {
        TwiceInBoth(sorted, models, i, i + 1);
        return Err(DuplicateRole(sorted[i].role));
      }
    }
    NeighboursTell(sorted);
    OnceInBoth(sorted, models);
    return Ok(Detector(config, sorted));
  }

  /** A detector whose models are sorted, one a role. */
  ghost predicate IsWired(d: Detector) {
    d.models != [] && ByRole(d.models) && OnePerRole(d.models)
  }

  lemma {:induction false} TwiceInBoth(a: seq<Slot>, b: seq<Slot>, i: nat, j: nat)
    requires multiset(a) == multiset(b) && i < j < |a| && a[i].role == a[j].role
    ensures exists k, l :: 0 <= k < l < |b| && b[k].role == a[i].role == b[l].role
  {
    if forall k, l | 0 <= k < l < |b| :: !(b[k].role == a[i].role == b[l].role) {
      assert a[i] in multiset(b) && a[j] in multiset(b);
      var k :| 0 <= k < |b| && b[k] == a[i];
      var l :| 0 <= l < |b| && b[l] == a[j];
      MultisetTwice(a, i, j);
      MultisetOnce(b, k);
    }
  }

  lemma {:induction false} MultisetTwice(a: seq<Slot>, i: nat, j: nat)
    requires i < j < |a|
    ensures a[i] == a[j] ==> multiset(a)[a[i]] >= 2
  {
    assert a == a[..j] + [a[j]] + a[j + 1..];
    assert a[i] in multiset(a[..j]) by { assert a[..j][i] == a[i]; }
  }

  lemma {:induction false} MultisetOnce(b: seq<Slot>, k: nat)
    requires k < |b| && forall l | 0 <= l < |b| && l != k :: b[l] != b[k]
    ensures multiset(b)[b[k]] == 1
  {
    assert b == b[..k] + [b[k]] + b[k + 1..];
  }

  lemma {:induction false} OnceInBoth(a: seq<Slot>, b: seq<Slot>)
    requires multiset(a) == multiset(b) && OnePerRole(a)
    ensures OnePerRole(b)
  {
    forall i, j | 0 <= i < j < |b| ensures b[i].role != b[j].role {
      if b[i].role == b[j].role {
        TwiceInBoth(b, a, i, j);
      }
    }
  }

  // ----- The digest's input -----

  /** "anomaly-detector/identity/v1" and a newline. */
  const DOMAIN: seq<Byte> := [
    97, 110, 111, 109, 97, 108, 121, 45, 100, 101, 116, 101, 99, 116, 111, 114, 47,
    105, 100, 101, 110, 116, 105, 116, 121, 47, 118, 49, 10]

  function FieldsOf(s: Slot): seq<Bytes> {
    [s.role.Name(), s.descriptor, s.baseline]
  }

  ghost function SlotFields(models: seq<Slot>): seq<Bytes> {
    if models == [] then [] else
    var last := models[|models| - 1];
    SlotFields(models[..|models| - 1]) + FieldsOf(last)
  }

  ghost function Identity(d: Detector): seq<Byte> {
    DOMAIN + Frames([d.config.canonical] + SlotFields(d.models))
  }

  class Hasher {
    var fed: seq<Byte>

    constructor ()
      ensures fed == []
    {
      fed := [];
    }

    method Update(bytes: seq<Byte>)
      modifies this
      ensures fed == old(fed) + bytes
    {
      fed := fed + bytes;
    }
  }

  lemma {:induction false} OneField(fields: seq<Bytes>, f: Bytes)
    ensures Frames(fields + [f]) == Frames(fields) + Field(f)
  {
    FramesConcat(fields, [f]);
    var one := [f];
    assert one[1..] == [] && Field(f) + [] == Field(f);
  }

  method UpdateField(hasher: Hasher, bytes: Bytes, ghost fields: seq<Bytes>)
    requires hasher.fed == DOMAIN + Frames(fields)
    modifies hasher
    ensures hasher.fed == DOMAIN + Frames(fields + [bytes])
  {
    OneField(fields, bytes);
    hasher.Update(BigEndian(|bytes|, 8));
    hasher.Update(bytes);
  }

  method UpdateSlot(hasher: Hasher, slot: Slot, ghost fields: seq<Bytes>)
    requires hasher.fed == DOMAIN + Frames(fields)
    modifies hasher
    ensures hasher.fed == DOMAIN + Frames(fields + FieldsOf(slot))
  {
    UpdateField(hasher, slot.role.Name(), fields);
    UpdateField(hasher, slot.descriptor, fields + [slot.role.Name()]);
    UpdateField(hasher, slot.baseline, fields + [slot.role.Name()] + [slot.descriptor]);
    assert fields + [slot.role.Name()] + [slot.descriptor] + [slot.baseline] == fields + FieldsOf(slot);
  }

  /** Feed a detector's whole learned configuration to the hasher. */
  method IdentityDigest(d: Detector, hash: seq<Byte> -> seq<Byte>) returns (digest: seq<Byte>)
    ensures digest == hash(Identity(d))
  {
    var hasher := new Hasher();
    hasher.Update(DOMAIN);
    ghost var fields: seq<Bytes> := [];
    UpdateField(hasher, d.config.canonical, fields);
    fields := fields + [d.config.canonical];
    for i := 0 to |d.models|
      invariant fields == [d.config.canonical] + SlotFields(d.models[..i])
      invariant hasher.fed == DOMAIN + Frames(fields)
    {
      assert d.models[..i + 1][..i] == d.models[..i];
      UpdateSlot(hasher, d.models[i], fields);
      fields := fields + FieldsOf(d.models[i]);
    }
    assert d.models[..|d.models|] == d.models;
    digest := hash(hasher.fed);
  }

  // ----- What the bytes identify -----

  lemma {:induction false} NamesDiffer(a: Role, b: Role)
    requires a.Name() == b.Name()
    ensures a == b
  {
    assert |Supervised.Name()| == 10 && |Novelty.Name()| == 7;
  }

  lemma {:induction false} SlotFieldsReadBack(a: seq<Slot>, b: seq<Slot>)
    requires SlotFields(a) == SlotFields(b)
    ensures a == b
    decreases |a|
  {
    SlotFieldsSize(a);
    SlotFieldsSize(b);
    if a != [] {
      var s, t := a[|a| - 1], b[|b| - 1];
      var x, y := SlotFields(a), SlotFields(b);
      var n := |x| - 3;
      assert x[n] == s.role.Name() && x[n + 1] == s.descriptor && x[n + 2] == s.baseline;
      assert y[n] == t.role.Name() && y[n + 1] == t.descriptor && y[n + 2] == t.baseline;
      assert x[..n] == SlotFields(a[..|a| - 1]) && y[..n] == SlotFields(b[..|b| - 1]);
      NamesDiffer(s.role, t.role);
      SlotFieldsReadBack(a[..|a| - 1], b[..|b| - 1]);
      assert a == a[..|a| - 1] + [s] && b == b[..|b| - 1] + [t];
    }
  }

  lemma {:induction false} SlotFieldsSize(a: seq<Slot>)
    ensures |SlotFields(a)| == 3 * |a|
    decreases |a|
  {
    if a != [] { SlotFieldsSize(a[..|a| - 1]); }
  }

  /** Models sorted one a role are determined by the set of them. */
  lemma {:induction false} SameSetSameList(a: seq<Slot>, b: seq<Slot>)
    requires ByRole(a) && OnePerRole(a) && ByRole(b) && OnePerRole(b) && Elements(a) == Elements(b)
    ensures a == b
    decreases |a|
  {
    assert forall i | 0 <= i < |a| :: a[i] in Elements(a);
    assert forall i | 0 <= i < |b| :: b[i] in Elements(b);
    if a == [] {
      assert Elements(a) == {};
    } else {
      SameHead(a, b);
      SameTails(a, b);
      SameSetSameList(a[1..], b[1..]);
      assert a == [a[0]] + a[1..] && b == [b[0]] + b[1..];
    }
  }

  lemma {:induction false} SameHead(a: seq<Slot>, b: seq<Slot>)
    requires ByRole(a) && OnePerRole(a) && ByRole(b) && OnePerRole(b) && Elements(a) == Elements(b) && a != []
    ensures b != [] && a[0] == b[0]
  {
    assert a[0] in Elements(b);
    var i :| 0 <= i < |b| && b[i] == a[0];
    assert b[0] in Elements(a);
    var j :| 0 <= j < |a| && a[j] == b[0];
    assert a[0].role.Rank() <= a[j].role.Rank() && b[0].role.Rank() <= b[i].role.Rank();
  }

  lemma {:induction false} SameTails(a: seq<Slot>, b: seq<Slot>)
    requires OnePerRole(a) && OnePerRole(b) && Elements(a) == Elements(b) && a != [] && b != [] && a[0] == b[0]
    ensures Elements(a[1..]) == Elements(b[1..])
  {
    TailIsRest(a);
    TailIsRest(b);
  }

  lemma {:induction false} TailIsRest(a: seq<Slot>)
    requires OnePerRole(a) && a != []
    ensures Elements(a[1..]) == Elements(a) - {a[0]}
  {
    assert a == [a[0]] + a[1..];
  }

  /** Two wired detectors feed the hasher the same bytes exactly when config and models are the same. */
  lemma {:induction false} SameIdentityIff(d: Detector, e: Detector)
    requires IsWired(d) && IsWired(e)
    ensures Identity(d) == Identity(e)
       <==> d.config.canonical == e.config.canonical && Elements(d.models) == Elements(e.models)
  {
    if Identity(d) == Identity(e) {
      var x, y := [d.config.canonical] + SlotFields(d.models), [e.config.canonical] + SlotFields(e.models);
      assert Frames(x) == Identity(d)[|DOMAIN|..] == Identity(e)[|DOMAIN|..] == Frames(y);
      FramesReadBack(x, y);
      assert x[0] == d.config.canonical && y[0] == e.config.canonical;
      assert x[1..] == SlotFields(d.models) && y[1..] == SlotFields(e.models);
      SlotFieldsReadBack(d.models, e.models);
    } else if Elements(d.models) == Elements(e.models) {
      SameSetSameList(d.models, e.models);
    }
  }

  /** Listing the models in another order wires the same identity. */
  lemma {:induction false} ListingOrderIsIrrelevant(d: Detector, e: Detector)
    requires IsWired(d) && IsWired(e) && d.config == e.config && multiset(d.models) == multiset(e.models)
    ensures Identity(d) == Identity(e)
  {
    forall s: Slot ensures s in Elements(d.models) <==> s in Elements(e.models) {
      assert s in multiset(d.models) <==> s in multiset(e.models);
    }
    SameIdentityIff(d, e);
  }
}
