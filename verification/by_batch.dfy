/**
 * `QueryResultByBatch` of `src/query/by_batch.rs`: each batch is serialized
 * row by row, inline for small batches and otherwise split into contiguous
 * chunks of rows, one worker per chunk, whose results are concatenated in
 * order. The workers run here one after another.
 */
module ByBatch {
  import opened Wrappers
  import opened Columns
  import opened LibrarySerializer
  import V = Values

  // ---------------------------------------------------------------------------
  // One row
  // ---------------------------------------------------------------------------

  function Time32Cell(slot: Option<Payload>, unit: string): Option<V.Value>
    requires slot.Some? ==> IsI32(slot.value)
  {
    if slot.None? then None else Some(V.Time32(slot.value.i, unit))
  }

  function Time64Cell(slot: Option<Payload>, unit: string): Option<V.Value>
    requires slot.Some? ==> IsI64(slot.value)
  {
    if slot.None? then None else Some(V.Time64(slot.value.i, unit))
  }

  /**
   * The per-cell dispatch of `serialize(index, batch)`. A `Null` column gives
   * `Some(Null)`, an unlisted type `Some(Fallback)`, an unsupported time unit the
   * unsupported text, and every other type `None` exactly for a null slot.
   */
  function CellValue(t: DataType, slot: Option<Payload>): (v: Option<V.Value>)
    requires slot.Some? ==> Fits(t, slot.value)
    ensures t.Null? ==> v == Some(V.Null)
    ensures t.Unlisted? ==> v == Some(V.Fallback)
    ensures (t.Time32? && t.time32Unit in {Microsecond, Nanosecond}) || (t.Time64? && t.time64Unit in {Second, Millisecond})
            ==> v == Some(V.String(UnsupportedText))
    ensures IsPlain(t) ==> v == if slot.None? then None else Some(PlainValue(t, slot.value))
  {
    if t.Null? then Some(V.Null)
    else if t.Unlisted? then Some(V.Fallback)
    else if IsPlain(t) then (if slot.None? then None else Some(PlainValue(t, slot.value)))
    else TemporalCell(t, slot)
  }

  /** The four temporal types: the value with its unit tag, or the unsupported text. */
  function TemporalCell(t: DataType, slot: Option<Payload>): (v: Option<V.Value>)
    requires t.Duration? || t.Timestamp? || t.Time32? || t.Time64?
    requires slot.Some? ==> Fits(t, slot.value)
    ensures (t.Time32? && t.time32Unit in {Microsecond, Nanosecond}) || (t.Time64? && t.time64Unit in {Second, Millisecond})
            ==> v == Some(V.String(UnsupportedText))
  {
    match t
    case Duration(u) => (
      match u
      case Microsecond => Time64Cell(slot, "\U{00B5}s")
      case Millisecond => Time64Cell(slot, "ms")
      case Nanosecond => Time64Cell(slot, "ns")
      case Second => Time64Cell(slot, "s"))
    case Timestamp(u, _) => (
      match u
      case Microsecond => Time64Cell(slot, "\U{00B5}s")
      case Millisecond => Time64Cell(slot, "ms")
      case Nanosecond => Time64Cell(slot, "ns")
      case Second => Time64Cell(slot, "s"))
    case Time32(u) => (
      match u
      case Millisecond => Time32Cell(slot, "ms")
      case Second => Time32Cell(slot, "s")
      case _ => Some(V.String("<unsupported type>")))
    case Time64(u) => (
      match u
      case Microsecond => Time64Cell(slot, "\U{00B5}s")
      case Nanosecond => Time64Cell(slot, "ns")
      case _ => Some(V.String("<unsupported type>")))
  }

  /** The per-cell dispatch and the per-column converter agree on every cell. */
  lemma CellAgrees(c: Column, i: nat)
    requires WellTyped(c) && i < |c.slots|
    ensures CellValue(c.dataType, c.slots[i]) == ConvertColumn(c)[i]
  {
    match c.dataType
    case Duration(u) =>
    case Timestamp(u, _) =>
    case Time32(u) =>
    case Time64(u) =>
    case _ =>
  }

  /** `serialize(index, batch)`: insert every column's cell at `index`, in schema order. */
  function CellsRow(cols: seq<Column>, index: nat): Row
    requires forall c :: 0 <= c < |cols| ==> index < |cols[c].slots| && WellTyped(cols[c])
    decreases |cols|
  {
    if |cols| == 0 then map[]
    else
      var last := cols[|cols| - 1];
      assert WellTyped(last) && index < |last.slots|;
      CellsRow(cols[..|cols| - 1], index)[last.name := CellValue(last.dataType, last.slots[index])]
  }

  /** Serializing one row gives the same map as transposing the converted columns. */
  lemma {:induction false} CellsRowIsRowOf(cols: seq<Column>, index: nat)
    requires forall c :: 0 <= c < |cols| ==> index < |cols[c].slots| && WellTyped(cols[c])
    ensures CellsRow(cols, index) == RowOf(cols, index)
    decreases |cols|
  {
    if |cols| > 0 {
      CellsRowIsRowOf(cols[..|cols| - 1], index);
      CellAgrees(cols[|cols| - 1], index);
    }
  }

  /** `serialize_batch`: the rows at the given indices, in the order given. */
  function SerializeBatch(b: Batch, indices: seq<nat>): (rows: seq<Row>)
    requires WellFormed(b)
    requires forall k :: 0 <= k < |indices| ==> indices[k] < b.rowCount
    ensures |rows| == |indices|
    ensures forall k :: 0 <= k < |indices| ==> rows[k] == Rows(b)[indices[k]]
  {
    var rows := seq(|indices|, k requires 0 <= k < |indices| => CellsRow(b.columns, indices[k]));
    forall k | 0 <= k < |indices| ensures rows[k] == Rows(b)[indices[k]] {
      CellsRowIsRowOf(b.columns, indices[k]);
    }
    rows
  }

  // ---------------------------------------------------------------------------
  // Splitting the rows
  // ---------------------------------------------------------------------------

  /** What `available_parallelism` reports: a non-zero count. */
  type NonZero = n: nat | n >= 1 witness 1

  /** `available_parallelism().map(|n| n.get().min(8)).unwrap_or(4)`. */
  function ThreadsCount(parallelism: Option<NonZero>): (t: nat)
    ensures 1 <= t <= 8
    ensures parallelism.Some? ==> t <= parallelism.value && (t == 8 || t == parallelism.value)
    ensures parallelism.None? ==> t == 4
  {
    match parallelism
    case Some(n) => if n < 8 then n else 8
    case None => 4
  }

  /** `usize::div_ceil`. */
  function DivCeil(n: nat, d: NonZero): (q: nat)
    ensures q * d >= n
    ensures q == 0 || (q - 1) * d < n
  {
    var q := (n + d - 1) / d;
    assert q * d <= n + d - 1 && n + d - 1 < (q + 1) * d;
    q
  }

  function Min(a: nat, b: nat): nat {
    if a < b then a else b
  }

  /** The indices `a..b`. */
  function Range(a: nat, b: nat): (r: seq<nat>)
    requires a <= b
    ensures |r| == b - a && forall k :: 0 <= k < |r| ==> r[k] == a + k
  {
    seq(b - a, k requires 0 <= k < b - a => a + k)
  }

  /**
   * The chunks `[s, min(s + size, n))` for `s` running from `start` up to `n` in
   * steps of `size`, as `(0..row_count).step_by(chunk_size)` yields them.
   */
  function Chunks(start: nat, n: nat, size: NonZero): (cs: seq<(nat, nat)>)
    ensures forall k :: 0 <= k < |cs| ==> start <= cs[k].0 < cs[k].1 <= n && cs[k].1 - cs[k].0 <= size
    decreases n - start
  {
    if start >= n then [] else [(start, Min(start + size, n))] + Chunks(start + size, n, size)
  }

  /** The indices of a list of chunks, chunk after chunk. */
  function Indices(cs: seq<(nat, nat)>): seq<nat>
    requires forall k :: 0 <= k < |cs| ==> cs[k].0 <= cs[k].1
    decreases |cs|
  {
    if |cs| == 0 then [] else Range(cs[0].0, cs[0].1) + Indices(cs[1..])
  }

  /** The chunks cover `start..n` exactly, in order, each index once. */
  lemma {:induction false} ChunksCover(start: nat, n: nat, size: NonZero)
    requires start <= n
    ensures Indices(Chunks(start, n, size)) == Range(start, n)
    decreases n - start
  {
    if start < n {
      var e := Min(start + size, n);
      var cs := Chunks(start, n, size);
      assert cs[1..] == Chunks(start + size, n, size);
      assert Indices(cs) == Range(start, e) + Indices(cs[1..]);
      if start + size < n {
        ChunksCover(start + size, n, size);
      } else {
        assert cs[1..] == [];
      }
      RangeSplit(start, e, n);
    }
  }

  lemma RangeSplit(a: nat, b: nat, c: nat)
    requires a <= b <= c
    ensures Range(a, b) + Range(b, c) == Range(a, c)
  {
  }

  lemma MulStep(k: nat, size: nat)
    requires k > 0
    ensures (k - 1) * size + size == k * size
  {
  }

  lemma MulMono(a: nat, b: nat, size: nat)
    requires a <= b
    ensures a * size <= b * size
  {
  }

  /** Chunk `k` starts at `start + k * size` and ends `size` later, or at `n`. */
  lemma {:induction false} ChunkAt(start: nat, n: nat, size: NonZero, k: nat)
    requires k < |Chunks(start, n, size)|
    ensures Chunks(start, n, size)[k] == (start + k * size, Min(start + k * size + size, n))
    decreases n - start
  {
    if k > 0 {
      var cs := Chunks(start, n, size);
      var rest := Chunks(start + size, n, size);
      assert cs == [cs[0]] + rest;
      ChunkAt(start + size, n, size, k - 1);
      MulStep(k, size);
      var s := start + size + (k - 1) * size;
      assert s == start + k * size;
      assert cs[k] == rest[k - 1] == (s, Min(s + size, n));
    }
  }

  /** Consecutive chunks meet end to start, so no two chunks share an index. */
  lemma ChunksAdjacent(start: nat, n: nat, size: NonZero, k: nat)
    requires k + 1 < |Chunks(start, n, size)|
    ensures Chunks(start, n, size)[k].1 == Chunks(start, n, size)[k + 1].0
  {
    ChunkAt(start, n, size, k);
    ChunkAt(start, n, size, k + 1);
    MulStep(k + 1, size);
  }

  /** The number of chunks is `n - start` divided by `size`, rounded up. */
  lemma {:induction false} ChunksCount(start: nat, n: nat, size: NonZero)
    ensures |Chunks(start, n, size)| * size >= n - start
    ensures |Chunks(start, n, size)| == 0 || (|Chunks(start, n, size)| - 1) * size < n - start
    decreases n - start
  {
    if start < n {
      ChunksCount(start + size, n, size);
      var k := |Chunks(start + size, n, size)|;
      assert |Chunks(start, n, size)| == k + 1;
      assert (k + 1) * size == k * size + size;
    }
  }

  /** With `chunk_size = ceil(n / threads)`, there are at most `threads` chunks. */
  lemma AtMostThreadsChunks(n: nat, threads: NonZero)
    requires n > 0
    ensures DivCeil(n, threads) >= 1
    ensures |Chunks(0, n, DivCeil(n, threads))| <= threads
  {
    var size := DivCeil(n, threads);
    ChunksCount(0, n, size);
    var k := |Chunks(0, n, size)|;
    if k > 0 {
      MulCancel(k - 1, threads, size);
    }
  }

  /** Multiplying by a positive size keeps strict order, so it can be cancelled. */
  lemma MulCancel(a: nat, b: nat, size: NonZero)
    requires a * size < b * size
    ensures a < b
  {
    if a >= b {
      MulMono(b, a, size);
    }
  }

  // ---------------------------------------------------------------------------
  // The whole batch
  // ---------------------------------------------------------------------------

  /** The workers' results, concatenated in order. */
  function Flatten(hs: seq<seq<Row>>): seq<Row>
    decreases |hs|
  {
    if |hs| == 0 then [] else hs[0] + Flatten(hs[1..])
  }

  lemma {:induction false} FlattenSnoc(hs: seq<seq<Row>>, h: seq<Row>)
    ensures Flatten(hs + [h]) == Flatten(hs) + h
    decreases |hs|
  {
    if |hs| == 0 {
      assert hs + [h] == [h];
      assert [h][1..] == [];
    } else {
      assert (hs + [h])[1..] == hs[1..] + [h];
      FlattenSnoc(hs[1..], h);
    }
  }

  /** Serializing chunk after chunk is serializing all their indices at once. */
  lemma {:induction false} SerializeChunks(b: Batch, cs: seq<(nat, nat)>, hs: seq<seq<Row>>)
    requires WellFormed(b)
    requires forall k :: 0 <= k < |cs| ==> cs[k].0 <= cs[k].1 <= b.rowCount
    requires |hs| == |cs| && forall k :: 0 <= k < |cs| ==> hs[k] == SerializeBatch(b, Range(cs[k].0, cs[k].1))
    ensures forall k :: 0 <= k < |Indices(cs)| ==> Indices(cs)[k] < b.rowCount
    ensures Flatten(hs) == SerializeBatch(b, Indices(cs))
    decreases |cs|
  {
    if |cs| > 0 {
      SerializeChunks(b, cs[1..], hs[1..]);
      var head, tail := Range(cs[0].0, cs[0].1), Indices(cs[1..]);
      assert Indices(cs) == head + tail;
      assert Flatten(hs) == hs[0] + Flatten(hs[1..]);
      SerializeBatchAppend(b, head, tail);
    }
  }

  /** Serializing two index lists one after the other is serializing their concatenation. */
  lemma SerializeBatchAppend(b: Batch, x: seq<nat>, y: seq<nat>)
    requires WellFormed(b)
    requires forall k :: 0 <= k < |x| ==> x[k] < b.rowCount
    requires forall k :: 0 <= k < |y| ==> y[k] < b.rowCount
    ensures forall k :: 0 <= k < |x + y| ==> (x + y)[k] < b.rowCount
    ensures SerializeBatch(b, x + y) == SerializeBatch(b, x) + SerializeBatch(b, y)
  {
    assert forall k :: 0 <= k < |x + y| ==> (x + y)[k] < b.rowCount by {
      forall k | 0 <= k < |x + y| ensures (x + y)[k] < b.rowCount {
        if k >= |x| {
          assert (x + y)[k] == y[k - |x|];
        }
      }
    }
  }

  /** The spawning loop: one worker per chunk, each serializing its chunk's rows. */
  method SpawnWorkers(b: Batch, size: NonZero) returns (handles: seq<seq<Row>>)
    requires WellFormed(b)
    ensures |handles| == |Chunks(0, b.rowCount, size)|
    ensures forall h :: 0 <= h < |handles| ==>
              handles[h] == SerializeBatch(b, Range(Chunks(0, b.rowCount, size)[h].0, Chunks(0, b.rowCount, size)[h].1))
  {
    var n := b.rowCount;
    ghost var cs := Chunks(0, n, size);
    ChunksCount(0, n, size);
    handles := [];
    var start := 0;
    while start < n
      invariant start == |handles| * size
      invariant |handles| <= |cs|
      invariant start >= n <==> |handles| == |cs|
      invariant forall h :: 0 <= h < |handles| ==> handles[h] == SerializeBatch(b, Range(cs[h].0, cs[h].1))
      decreases n - start
    {
      SpawnStep(n, size, |handles|);
      var end := Min(start + size, n);
      handles := handles + [SerializeBatch(b, Range(start, end))];
      start := start + size;
    }
  }

  /** One turn of the spawning loop: chunk `h` starts at `h * size`, and it is the last one exactly when the next start reaches `n`. */
  lemma SpawnStep(n: nat, size: NonZero, h: nat)
    requires h < |Chunks(0, n, size)|
    ensures Chunks(0, n, size)[h] == (h * size, Min(h * size + size, n))
    ensures (h + 1) * size == h * size + size
    ensures (h + 1) * size >= n <==> h + 1 == |Chunks(0, n, size)|
  {
    var cs := Chunks(0, n, size);
    ChunkAt(0, n, size, h);
    ChunksCount(0, n, size);
    MulStep(h + 1, size);
    if h + 1 < |cs| {
      MulMono(h + 1, |cs| - 1, size);
    }
  }

  /** The joining loop: `output.extend(handle)` in spawn order. */
  method JoinWorkers(handles: seq<seq<Row>>) returns (output: seq<Row>)
    ensures output == Flatten(handles)
  {
    output := [];
    var h := 0;
    while h < |handles|
      invariant 0 <= h <= |handles|
      invariant output == Flatten(handles[..h])
    {
      FlattenSnoc(handles[..h], handles[h]);
      assert handles[..h + 1] == handles[..h] + [handles[h]];
      output := output + handles[h];
      h := h + 1;
    }
    assert handles[..h] == handles;
  }

  /**
   * `next`: the next item of the stream. The end of the stream and an error
   * both give `None`; a batch gives all its rows in order, serialized inline
   * below 100 rows and otherwise by `workers` chunk workers, at most as many as
   * `ThreadsCount` allows.
   */
  method Next(item: Option<Result<Batch, FlightError>>, parallelism: Option<NonZero>)
    returns (out: Option<seq<Row>>, workers: nat)
    requires item.Some? && item.value.Success? ==> WellFormed(item.value.value)
    ensures out.None? <==> item.None? || item.value.Failure?
    ensures out.Some? ==> out.value == Rows(item.value.value)
    ensures out.Some? && item.value.value.rowCount >= 100 ==> 1 <= workers <= ThreadsCount(parallelism)
    ensures out.None? || item.value.value.rowCount < 100 ==> workers == 0
  {
    if item.None? || item.value.Failure? {
      return None, 0;
    }
    var b := item.value.value;
    var n := b.rowCount;
    if n < 100 {
      var rows := SerializeBatch(b, Range(0, n));
      assert rows == Rows(b);
      return Some(rows), 0;
    }
    var threads := ThreadsCount(parallelism);
    var size := DivCeil(n, threads);
    var handles := SpawnWorkers(b, size);
    var output := JoinWorkers(handles);
    AtMostThreadsChunks(n, threads);
    SerializeChunks(b, Chunks(0, n, size), handles);
    ChunksCover(0, n, size);
    assert output == Rows(b);
    return Some(output), |handles|;
  }
}
