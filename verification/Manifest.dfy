/**
 What an artifact claims of each table, and the comparison with what a restore produced.
 */
module Manifest {
  import opened Common
  import opened Sequences
  import opened Stream

  // ----- The printed digest -----

  function HexDigit(d: nat): char
    requires d < 16
  {
    "0123456789abcdef"[d]
  }

  /** The low digits of a number, most significant first. */
  function Hex(n: nat, digits: nat): (s: string)
    ensures |s| == digits
  {
    if digits == 0 then "" else Hex(n / 16, digits - 1) + [HexDigit(n % 16)]
  }

  function Pow16(k: nat): (p: nat)
    ensures p > 0
  {
    if k == 0 then 1 else 16 * Pow16(k - 1)
  }

  lemma {:induction false} HexDigitsDiffer(a: nat, b: nat)
    requires a < 16 && b < 16 && HexDigit(a) == HexDigit(b)
    ensures a == b
  {}

  /** Numbers that fit print differently unless they are equal. */
  lemma {:induction false} HexIsInjective(a: nat, b: nat, digits: nat)
    requires a < Pow16(digits) && b < Pow16(digits) && Hex(a, digits) == Hex(b, digits)
    ensures a == b
    decreases digits
  {
    if digits > 0 {
      var s, t := Hex(a / 16, digits - 1), Hex(b / 16, digits - 1);
      assert Hex(a, digits)[..digits - 1] == s && Hex(b, digits)[..digits - 1] == t;
      assert Hex(a, digits)[digits - 1] == HexDigit(a % 16) && Hex(b, digits)[digits - 1] == HexDigit(b % 16);
      HexDigitsDiffer(a % 16, b % 16);
      HexIsInjective(a / 16, b / 16, digits - 1);
    }
  }

  lemma {:induction false} Pow16Adds(a: nat, b: nat)
    ensures Pow16(a + b) == Pow16(a) * Pow16(b)
    decreases a
  {
    if a > 0 {
      Pow16Adds(a - 1, b);
      assert Pow16(a + b) == 16 * Pow16(a - 1 + b);
    }
  }

  lemma {:induction false} SixteenDigitsHoldAWord()
    ensures Pow16(16) == TWO_64
  {
    assert Pow16(2) == 256;
    Pow16Adds(2, 2);
    Pow16Adds(4, 4);
    Pow16Adds(8, 8);
  }

  // ----- Fingerprints -----

  datatype TableFingerprint = TableFingerprint(rows: nat, content: string)

  function Content(sum: Word): string {
    Hex(sum, 16)
  }

  /** The fingerprint of a table that holds these rows. */
  ghost function FingerprintOf(hash: Bytes -> Word, rows: seq<Bytes>): TableFingerprint {
    TableFingerprint(|rows|, Content(HashSum(hash, rows) % TWO_64))
  }

  method Finish(accumulator: ContentAccumulator) returns (f: TableFingerprint)
    requires accumulator.Valid()
    ensures f == FingerprintOf(accumulator.hash, accumulator.absorbed)
  {
    f := TableFingerprint(accumulator.rows, Content(accumulator.sum));
  }

  /** Rows laid down in another order have the same fingerprint. */
  lemma {:induction false} RowOrderIsIrrelevant(hash: Bytes -> Word, rows: seq<Bytes>, other: seq<Bytes>)
    requires multiset(rows) == multiset(other)
    ensures FingerprintOf(hash, rows) == FingerprintOf(hash, other)
  {
    SumPermutation(rows, other, (row: Bytes) => hash(row) as nat);
    assert |rows| == |multiset(rows)| == |multiset(other)| == |other|;
  }

  /** Fingerprints are equal exactly when the counts are and the hash sums are, modulo a word. */
  lemma {:induction false} SameFingerprintIff(hash: Bytes -> Word, rows: seq<Bytes>, other: seq<Bytes>)
    ensures FingerprintOf(hash, rows) == FingerprintOf(hash, other)
       <==> |rows| == |other| && HashSum(hash, rows) % TWO_64 == HashSum(hash, other) % TWO_64
  {
    SixteenDigitsHoldAWord();
    var a, b := HashSum(hash, rows) % TWO_64, HashSum(hash, other) % TWO_64;
    if Content(a) == Content(b) { HexIsInjective(a, b, 16); }
  }

  /** One row changed is always seen, when the two rows hash differently. */
  lemma {:induction false} OneChangedRowIsSeen(hash: Bytes -> Word, before: seq<Bytes>, row: Bytes, other: Bytes,
                                               after: seq<Bytes>)
    requires hash(row) != hash(other)
    ensures FingerprintOf(hash, before + [row] + after) != FingerprintOf(hash, before + [other] + after)
  {
    SameFingerprintIff(hash, before + [row] + after, before + [other] + after);
    SumAround(hash, before, row, after);
    SumAround(hash, before, other, after);
    DifferByLessThanAWord(HashSum(hash, before) + HashSum(hash, after), hash(row), hash(other));
  }

  lemma {:induction false} SumAround(hash: Bytes -> Word, before: seq<Bytes>, row: Bytes, after: seq<Bytes>)
    ensures HashSum(hash, before + [row] + after) == HashSum(hash, before) + HashSum(hash, after) + hash(row)
  {
    var f := (row: Bytes) => hash(row) as nat;
    SumAppend(before + [row], after, f);
    HashSumNext(hash, before, row);
  }

  lemma {:induction false} DifferByLessThanAWord(base: nat, a: Word, b: Word)
    requires a != b
    ensures (base + a) % TWO_64 != (base + b) % TWO_64
  {}

  // ----- The comparison -----

  datatype ChangedTable = ChangedTable(
    table: string, expectedRows: nat, actualRows: nat, expectedContent: string, actualContent: string)

  datatype FingerprintDiff = FingerprintDiff(missing: set<string>, unexpected: set<string>, changed: seq<ChangedTable>) {
    predicate IsClean() {
      missing == {} && unexpected == {} && changed == []
    }
  }

  type Tables = map<string, TableFingerprint>

  predicate Changed(tables: Tables, restored: Tables, t: string)
    requires t in tables && t in restored
  {
    tables[t].rows != restored[t].rows || tables[t].content != restored[t].content
  }

  /** The changes found among some of the tables on both sides. */
  ghost predicate Lists(tables: Tables, restored: Tables, among: set<string>, changed: seq<ChangedTable>) {
    && (forall c <- changed ::
          && c.table in among && c.table in tables && c.table in restored && Changed(tables, restored, c.table)
          && c == ChangedTable(c.table, tables[c.table].rows, restored[c.table].rows,
                               tables[c.table].content, restored[c.table].content))
    && (forall t <- among :: t in tables && t in restored && (Changed(tables, restored, t) ==>
          exists i :: 0 <= i < |changed| && changed[i].table == t))
    && (forall i, j | 0 <= i < j < |changed| :: changed[i].table != changed[j].table)
  }

  lemma {:induction false} ListsNext(tables: Tables, restored: Tables, among: set<string>, changed: seq<ChangedTable>,
                                     t: string)
    requires Lists(tables, restored, among, changed) && t !in among && t in tables && t in restored
    ensures Changed(tables, restored, t) ==>
              Lists(tables, restored, among + {t},
                    changed + [ChangedTable(t, tables[t].rows, restored[t].rows, tables[t].content, restored[t].content)])
    ensures !Changed(tables, restored, t) ==> Lists(tables, restored, among + {t}, changed)
  {
    var c := ChangedTable(t, tables[t].rows, restored[t].rows, tables[t].content, restored[t].content);
    var more := changed + [c];
    assert more[|changed|] == c;
    forall u <- among | Changed(tables, restored, u) ensures exists i :: 0 <= i < |more| && more[i].table == u {
      var i :| 0 <= i < |changed| && changed[i].table == u;
      assert more[i] == changed[i];
    }
  }

  ghost predicate IsDiff(tables: Tables, restored: Tables, d: FingerprintDiff) {
    && d.missing == tables.Keys - restored.Keys && d.unexpected == restored.Keys - tables.Keys
    && Lists(tables, restored, tables.Keys * restored.Keys, d.changed)
  }

  /** Compare what the artifact claimed with what a restore produced. */
  method Diff(tables: Tables, restored: Tables) returns (d: FingerprintDiff)
    ensures IsDiff(tables, restored, d)
  {
    var changed: seq<ChangedTable> := [];
    var tablesLeft := tables.Keys * restored.Keys;
    ghost var seen: set<string> := {};
    while tablesLeft != {}
      invariant forall t: string :: t in tables && t in restored <==> t in tablesLeft || t in seen
      invariant forall t <- tablesLeft :: t !in seen
      invariant Lists(tables, restored, seen, changed)
      decreases |tablesLeft|
    {
      var t :| t in tablesLeft;
      ListsNext(tables, restored, seen, changed, t);
      var want, got := tables[t], restored[t];
      if want.rows != got.rows || want.content != got.content {
        changed := changed + [ChangedTable(t, want.rows, got.rows, want.content, got.content)];
      }
      tablesLeft, seen := tablesLeft - {t}, seen + {t};
    }
    assert seen == tables.Keys * restored.Keys;
    d := FingerprintDiff(tables.Keys - restored.Keys, restored.Keys - tables.Keys, changed);
  }

  /** A diff is clean exactly when the restore is, table for table, what the artifact claimed. */
  lemma {:induction false} CleanIff(tables: Tables, restored: Tables, d: FingerprintDiff)
    requires IsDiff(tables, restored, d)
    ensures d.IsClean() <==> tables == restored
  {
    if d.IsClean() {
      assert tables.Keys == restored.Keys;
      forall t <- tables ensures tables[t] == restored[t] {
        assert t in tables.Keys * restored.Keys;
      }
    }
    assert d.changed != [] ==> d.changed[0] in d.changed;
  }

  ghost function FingerprintsOf(hash: Bytes -> Word, contents: map<string, seq<Bytes>>): Tables {
    map t | t in contents :: FingerprintOf(hash, contents[t])
  }

  /** A restore that holds the artifact's rows, each table in any order, is clean. */
  lemma {:induction false} FaithfulRestoreIsClean(hash: Bytes -> Word, dumped: map<string, seq<Bytes>>,
                                                  restored: map<string, seq<Bytes>>, d: FingerprintDiff)
    requires dumped.Keys == restored.Keys && forall t <- dumped :: multiset(dumped[t]) == multiset(restored[t])
    requires IsDiff(FingerprintsOf(hash, dumped), FingerprintsOf(hash, restored), d)
    ensures d.IsClean()
  {
    forall t <- dumped ensures FingerprintOf(hash, dumped[t]) == FingerprintOf(hash, restored[t]) {
      RowOrderIsIrrelevant(hash, dumped[t], restored[t]);
    }
    assert FingerprintsOf(hash, dumped) == FingerprintsOf(hash, restored);
    CleanIff(FingerprintsOf(hash, dumped), FingerprintsOf(hash, restored), d);
  }
}
