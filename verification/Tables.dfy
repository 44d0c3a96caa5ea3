/**
 The names a table replacement moves through, and the table statements of the
 store as functions on a map from table name to table.
 */
module Tables {
  import opened Common

  const STAGED_SUFFIX: string := "__next"
  const RETIRED_SUFFIX: string := "__retired"

  function Staged(live: string): string { live + STAGED_SUFFIX }

  function Retired(live: string): string { live + RETIRED_SUFFIX }

  lemma {:induction false} NamesDiffer(live: string)
    ensures live != Staged(live) && live != Retired(live) && Staged(live) != Retired(live)
  {
    assert |Staged(live)| == |live| + 6 && |Retired(live)| == |live| + 9;
  }

  /** `EXCHANGE TABLES a AND b`: refused unless both exist. */
  function Exchanged<T>(tables: map<string, T>, a: string, b: string): Option<map<string, T>> {
    if a in tables && b in tables then Some(tables[a := tables[b]][b := tables[a]]) else None
  }

  /** `RENAME TABLE a TO b`: refused unless `a` exists and `b` does not. */
  function Renamed<T>(tables: map<string, T>, a: string, b: string): Option<map<string, T>> {
    if a in tables && b !in tables then Some((tables - {a})[b := tables[a]]) else None
  }

  /** `DROP TABLE IF EXISTS a`. */
  function Dropped<T>(tables: map<string, T>, a: string): map<string, T> {
    tables - {a}
  }
}
