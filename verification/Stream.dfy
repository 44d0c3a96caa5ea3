/**
 Streaming a table's rows: chunks of bytes in, newline-terminated rows out, each folded into
 an order-independent digest. The row hash is a parameter; nothing is assumed of it.
 */
module Stream {
  import opened Common
  import opened Sequences

  const NEWLINE: Byte := 10

  type Bytes = seq<Byte>

  // ----- Rows of a response, read byte by byte -----

  /** The rows ended by a newline so far, and what has come since the last newline. */
  datatype Scan = Scan(rows: seq<Bytes>, pending: Bytes) {
    function Next(b: Byte): Scan {
      if b != NEWLINE then this.(pending := pending + [b])
      else Scan(if pending == [] then rows else rows + [pending], [])
    }

    function Read(bytes: Bytes): Scan
      decreases |bytes|
    {
      if bytes == [] then this else Read(bytes[..|bytes| - 1]).Next(bytes[|bytes| - 1])
    }
  }

  const START := Scan([], [])

  ghost function Rows(bytes: Bytes): seq<Bytes> {
    START.Read(bytes).rows
  }

  ghost function Fragment(bytes: Bytes): Bytes {
    START.Read(bytes).pending
  }

  lemma {:induction false} ReadConcat(s: Scan, a: Bytes, b: Bytes)
    ensures s.Read(a + b) == s.Read(a).Read(b)
    decreases |b|
  {
    if b == [] {
      assert a + b == a;
    } else {
      assert (a + b)[..|a + b| - 1] == a + b[..|b| - 1];
      ReadConcat(s, a, b[..|b| - 1]);
    }
  }

  lemma {:induction false} ReadNoNewline(s: Scan, a: Bytes)
    requires forall i | 0 <= i < |a| :: a[i] != NEWLINE
    ensures s.Read(a) == Scan(s.rows, s.pending + a)
    decreases |a|
  {
    if a == [] {
      assert s.pending + a == s.pending;
    } else {
      var front := a[..|a| - 1];
      ReadNoNewline(s, front);
      assert s.pending + a == (s.pending + front) + [a[|a| - 1]];
    }
  }

  /** Nothing is left after the last newline exactly when there is nothing, or a newline at the end. */
  lemma {:induction false} NoFragmentIff(bytes: Bytes)
    ensures Fragment(bytes) == [] <==> bytes == [] || bytes[|bytes| - 1] == NEWLINE
  {}

  function FirstNewline(bytes: Bytes): (at: Option<nat>)
    ensures at.None? ==> forall k | 0 <= k < |bytes| :: bytes[k] != NEWLINE
    ensures at.Some? ==> at.value < |bytes| && bytes[at.value] == NEWLINE && forall k | 0 <= k < at.value :: bytes[k] != NEWLINE
  {
    if bytes == [] then None
    else if bytes[0] == NEWLINE then Some(0)
    else match FirstNewline(bytes[1..])
         case Some(i) => Some(i + 1)
         case None => None
  }

  /** The rows laid out one a line. */
  ghost function Render(rows: seq<Bytes>): Bytes {
    if rows == [] then [] else Render(rows[..|rows| - 1]) + rows[|rows| - 1] + [NEWLINE]
  }

  ghost predicate IsRow(row: Bytes) {
    row != [] && forall i | 0 <= i < |row| :: row[i] != NEWLINE
  }

  lemma {:induction false} ReadOneLine(s: Scan, line: Bytes)
    requires s.pending == [] && forall i | 0 <= i < |line| :: line[i] != NEWLINE
    ensures s.Read(line + [NEWLINE]) == Scan(if line == [] then s.rows else s.rows + [line], [])
  {
    ReadNoNewline(s, line);
    assert [] + line == line;
    assert (line + [NEWLINE])[..|line|] == line;
  }

  /** One line, then the rest. */
  lemma {:induction false} ReadLine(s: Scan, line: Bytes, rest: Bytes)
    requires s.pending == [] && forall i | 0 <= i < |line| :: line[i] != NEWLINE
    ensures s.Read(line + [NEWLINE] + rest) == Scan(if line == [] then s.rows else s.rows + [line], []).Read(rest)
  {
    ReadConcat(s, line + [NEWLINE], rest);
    ReadOneLine(s, line);
  }

  /** Rows that are written out read back as they were. */
  lemma {:induction false} RenderReadsBack(rows: seq<Bytes>)
    requires forall i | 0 <= i < |rows| :: IsRow(rows[i])
    ensures START.Read(Render(rows)) == Scan(rows, [])
    decreases |rows|
  {
    if rows != [] {
      var front, last := rows[..|rows| - 1], rows[|rows| - 1];
      RenderReadsBack(front);
      assert Render(rows) == Render(front) + (last + [NEWLINE]);
      ReadConcat(START, Render(front), last + [NEWLINE]);
      ReadOneLine(Scan(front, []), last);
      assert rows == front + [last];
    }
  }

  // ----- The accumulator -----

  ghost function HashSum(hash: Bytes -> Word, rows: seq<Bytes>): nat {
    Sum(rows, (row: Bytes) => hash(row) as nat)
  }

  lemma {:induction false} HashSumNext(hash: Bytes -> Word, rows: seq<Bytes>, row: Bytes)
    ensures HashSum(hash, rows + [row]) == HashSum(hash, rows) + hash(row)
  {
    var f := (row: Bytes) => hash(row) as nat;
    SumAppend(rows, [row], f);
    assert [row][1..] == [];
  }

  lemma {:induction false} WrappedSum(a: nat, b: nat)
    ensures (a % TWO_64 + b) % TWO_64 == (a + b) % TWO_64
  {}

  class ContentAccumulator {
    const hash: Bytes -> Word
    var rows: nat
    var sum: Word
    /** What has been absorbed. */
    ghost var absorbed: seq<Bytes>

    ghost predicate Valid()
      reads this
    {
      rows == |absorbed| && sum == HashSum(hash, absorbed) % TWO_64
    }

    constructor (hash: Bytes -> Word)
      ensures Valid() && absorbed == [] && this.hash == hash
    {
      this.hash := hash;
      rows, sum, absorbed := 0, 0, [];
    }

    method AbsorbRow(row: Bytes)
      requires Valid()
      modifies this
      ensures Valid() && absorbed == old(absorbed) + [row]
    {
      HashSumNext(hash, absorbed, row);
      WrappedSum(HashSum(hash, absorbed), hash(row));
      rows := rows + 1;
      sum := (sum + hash(row)) % TWO_64;
      absorbed := absorbed + [row];
    }
  }

  // ----- The stream -----

  datatype Received = Chunk(bytes: Bytes) | Fault | Cancelled

  datatype StreamError = Broken | Stopped | Truncated(rows: nat)

  /** The bytes of the first chunks, put together. */
  ghost function Delivered(feed: seq<Received>, n: nat): Bytes
    requires n <= |feed|
  {
    if n == 0 then [] else Delivered(feed, n - 1) + if feed[n - 1].Chunk? then feed[n - 1].bytes else []
  }

  /** Take the whole lines out of what is pending, absorbing those that are rows. */
  method TakeLines(pending: Bytes, into: ContentAccumulator) returns (rest: Bytes)
    requires into.Valid()
    modifies into
    ensures into.Valid()
    ensures Scan(into.absorbed, rest) == Scan(old(into.absorbed), []).Read(pending)
  {
    rest := pending;
    ghost var whole := Scan(into.absorbed, []).Read(pending);
    var newline := FirstNewline(rest);
    while newline.Some?
      invariant into.Valid() && newline == FirstNewline(rest)
      invariant Scan(into.absorbed, []).Read(rest) == whole
      decreases |rest|
    {
      var row := rest[..newline.value];
      assert rest == row + [NEWLINE] + rest[newline.value + 1..];
      ReadLine(Scan(into.absorbed, []), row, rest[newline.value + 1..]);
      if row != [] {
        into.AbsorbRow(row);
      }
      rest := rest[newline.value + 1..];
      newline := FirstNewline(rest);
    }
    ReadNoNewline(Scan(into.absorbed, []), rest);
    assert [] + rest == rest;
  }

  ghost predicate AllArrived(feed: seq<Received>) {
    forall i | 0 <= i < |feed| :: feed[i].Chunk?
  }

  ghost predicate NoNewline(bytes: Bytes) {
    forall i | 0 <= i < |bytes| :: bytes[i] != NEWLINE
  }

  lemma {:induction false} PendingHasNoNewline(s: Scan, bytes: Bytes)
    requires NoNewline(s.pending)
    ensures NoNewline(s.Read(bytes).pending)
    decreases |bytes|
  {
    if bytes != [] { PendingHasNoNewline(s, bytes[..|bytes| - 1]); }
  }

  /** Reading what is pending, and then a chunk, is reading on. */
  lemma {:induction false} NextChunk(before: Bytes, bytes: Bytes, rows: seq<Bytes>, pending: Bytes)
    requires Scan(rows, pending) == START.Read(before)
    ensures Scan(rows, []).Read(pending + bytes) == START.Read(before + bytes)
  {
    PendingHasNoNewline(START, before);
    ReadNoNewline(Scan(rows, []), pending);
    assert [] + pending == pending;
    ReadConcat(START, before, bytes);
    ReadConcat(Scan(rows, []), pending, bytes);
  }

  /** One more chunk of a response. */
  method TakeChunk(bytes: Bytes, pending: Bytes, into: ContentAccumulator, ghost before: Bytes) returns (rest: Bytes)
    requires into.Valid() && Scan(into.absorbed, pending) == START.Read(before)
    modifies into
    ensures into.Valid() && Scan(into.absorbed, rest) == START.Read(before + bytes)
  {
    NextChunk(before, bytes, into.absorbed, pending);
    rest := TakeLines(pending + bytes, into);
  }

  /** Every chunk until one does not arrive, absorbed as it comes; what it said if one did not. */
  method AbsorbChunks(feed: seq<Received>, accumulator: ContentAccumulator)
    returns (failed: Option<StreamError>, pending: Bytes, written: Bytes)
    requires accumulator.Valid() && accumulator.absorbed == []
    modifies accumulator
    ensures accumulator.Valid()
    ensures failed.None? <==> AllArrived(feed)
    ensures failed.None? ==>
              written == Delivered(feed, |feed|) && Scan(accumulator.absorbed, pending) == START.Read(written)
    ensures failed.Some? ==> !failed.value.Truncated?
  {
    pending, written := [], [];
    for i := 0 to |feed|
      invariant forall j | 0 <= j < i :: feed[j].Chunk?
      invariant accumulator.Valid()
      invariant written == Delivered(feed, i)
      invariant Scan(accumulator.absorbed, pending) == START.Read(written)
    {
      if !feed[i].Chunk? {
        return Some(if feed[i].Fault? then Broken else Stopped), pending, written;
      }
      pending := TakeChunk(feed[i].bytes, pending, accumulator, written);
      written := written + feed[i].bytes;
    }
    failed := None;
  }

  /**
   Read a response to its end, writing the bytes out as they come. It succeeds exactly when
   every chunk arrived and the last one ended a line, and then it absorbed exactly the rows
   of the bytes, wherever the chunks were cut.
   */
  method StreamRows(feed: seq<Received>, hash: Bytes -> Word)
    returns (r: Result<ContentAccumulator, StreamError>, written: Bytes)
    ensures r.Ok? <==> AllArrived(feed) && Fragment(Delivered(feed, |feed|)) == []
    ensures r.Ok? ==> written == Delivered(feed, |feed|)
    ensures r.Ok? ==> fresh(r.value) && r.value.Valid() && r.value.hash == hash && r.value.absorbed == Rows(written)
    ensures r.Err? && r.error.Truncated? ==> AllArrived(feed) && r.error.rows == |Rows(Delivered(feed, |feed|))|
  {
    var accumulator := new ContentAccumulator(hash);
    var failed, pending, bytes := AbsorbChunks(feed, accumulator);
    written := bytes;
    if failed.Some? {
      return Err(failed.value), written;
    }
    if pending != [] {
      return Err(Truncated(accumulator.rows)), written;
    }
    return Ok(accumulator), written;
  }
}
