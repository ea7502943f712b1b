/**
 * `LibrarySerializer` of `src/serializer/library_serializer.rs`: every column
 * is converted to one `Option<Value>` per row, then the columns are transposed
 * into one map per row from column name to value.
 */
module LibrarySerializer {
  import opened Wrappers
  import opened Columns
  import V = Values

  /** The error a record-batch stream can yield instead of a batch. */
  datatype FlightError = FlightError(message: string)

  /** A record batch: its columns in schema order, all `rowCount` long. */
  datatype Batch = Batch(columns: seq<Column>, rowCount: nat)

  predicate WellFormed(b: Batch) {
    forall c :: 0 <= c < |b.columns| ==> |b.columns[c].slots| == b.rowCount && WellTyped(b.columns[c])
  }

  /** One output row: column name to cell. */
  type Row = map<string, Option<V.Value>>

  // ---------------------------------------------------------------------------
  // Per-column conversion
  // ---------------------------------------------------------------------------

  /** Every slot's payload is a 32-bit (resp. 64-bit) integer. */
  predicate AllI32(slots: seq<Option<Payload>>) {
    forall i :: 0 <= i < |slots| && slots[i].Some? ==> IsI32(slots[i].value)
  }

  predicate AllI64(slots: seq<Option<Payload>>) {
    forall i :: 0 <= i < |slots| && slots[i].Some? ==> IsI64(slots[i].value)
  }

  /** The loop `push(if is_null(i) { None } else { Some(Time32(value(i), unit)) })`. */
  function Time32Cells(slots: seq<Option<Payload>>, unit: string): (vs: seq<Option<V.Value>>)
    requires AllI32(slots)
    ensures |vs| == |slots|
    ensures forall i :: 0 <= i < |slots| ==>
              vs[i] == if slots[i].None? then None else Some(V.Time32(slots[i].value.i, unit))
  {
    seq(|slots|, i requires 0 <= i < |slots| =>
      if slots[i].None? then None else Some(V.Time32(slots[i].value.i, unit)))
  }

  /** The same loop producing `Time64` values. */
  function Time64Cells(slots: seq<Option<Payload>>, unit: string): (vs: seq<Option<V.Value>>)
    requires AllI64(slots)
    ensures |vs| == |slots|
    ensures forall i :: 0 <= i < |slots| ==>
              vs[i] == if slots[i].None? then None else Some(V.Time64(slots[i].value.i, unit))
  {
    seq(|slots|, i requires 0 <= i < |slots| =>
      if slots[i].None? then None else Some(V.Time64(slots[i].value.i, unit)))
  }

  /** `column_values.resize(row_count, Some(v))` on an empty vector. */
  function Constant(n: nat, v: V.Value): (vs: seq<Option<V.Value>>)
    ensures |vs| == n && forall i :: 0 <= i < n ==> vs[i] == Some(v)
  {
    seq(n, _ => Some(v))
  }

  /** `serialize_duration_column`: `Time64` values tagged with the unit. */
  function DurationColumn(slots: seq<Option<Payload>>, u: TimeUnit): (vs: seq<Option<V.Value>>)
    requires AllI64(slots)
    ensures vs == Time64Cells(slots, UnitText(u))
  {
    match u
    case Microsecond => Time64Cells(slots, "\U{00B5}s")
    case Millisecond => Time64Cells(slots, "ms")
    case Nanosecond => Time64Cells(slots, "ns")
    case Second => Time64Cells(slots, "s")
  }

  /** `serialize_timestamp_column`: as for durations; the time zone is not looked at. */
  function TimestampColumn(slots: seq<Option<Payload>>, u: TimeUnit): (vs: seq<Option<V.Value>>)
    requires AllI64(slots)
    ensures vs == DurationColumn(slots, u)
    ensures |vs| == |slots|
    ensures forall i :: 0 <= i < |slots| ==> (vs[i].None? <==> slots[i].None?)
  {
    match u
    case Microsecond => Time64Cells(slots, "\U{00B5}s")
    case Millisecond => Time64Cells(slots, "ms")
    case Nanosecond => Time64Cells(slots, "ns")
    case Second => Time64Cells(slots, "s")
  }

  /** `serialize_time32_column`: seconds and milliseconds only; any other unit fills the column with the unsupported text. */
  function Time32Column(slots: seq<Option<Payload>>, u: TimeUnit): (vs: seq<Option<V.Value>>)
    requires AllI32(slots)
    ensures (u == Second || u == Millisecond) ==> vs == Time32Cells(slots, UnitText(u))
    ensures !(u == Second || u == Millisecond) ==> vs == Constant(|slots|, V.String(UnsupportedText))
  {
    match u
    case Millisecond => Time32Cells(slots, "ms")
    case Second => Time32Cells(slots, "s")
    case _ => Constant(|slots|, V.String("<unsupported type>"))
  }

  /** `serialize_time64_column`: microseconds and nanoseconds only. */
  function Time64Column(slots: seq<Option<Payload>>, u: TimeUnit): (vs: seq<Option<V.Value>>)
    requires AllI64(slots)
    ensures (u == Microsecond || u == Nanosecond) ==> vs == Time64Cells(slots, UnitText(u))
    ensures !(u == Microsecond || u == Nanosecond) ==> vs == Constant(|slots|, V.String(UnsupportedText))
  {
    match u
    case Microsecond => Time64Cells(slots, "\U{00B5}s")
    case Nanosecond => Time64Cells(slots, "ns")
    case _ => Constant(|slots|, V.String("<unsupported type>"))
  }

  /** The loop shared by every plain type: a null slot gives `None`, any other its value. */
  function PlainColumn(t: DataType, slots: seq<Option<Payload>>): (vs: seq<Option<V.Value>>)
    requires IsPlain(t)
    requires forall i :: 0 <= i < |slots| && slots[i].Some? ==> Fits(t, slots[i].value)
    ensures |vs| == |slots|
    ensures forall i :: 0 <= i < |slots| ==> (vs[i].None? <==> slots[i].None?)
  {
    seq(|slots|, i requires 0 <= i < |slots| =>
      if slots[i].None? then None else Some(PlainValue(t, slots[i].value)))
  }

  /**
   * `serialize_column`: one entry per row for every type. A `Null` column is all
   * `Some(Null)` and an unlisted type all `Some(Fallback)`, whatever the slots; a
   * supported type gives `None` exactly for the null slots.
   */
  function ConvertColumn(c: Column): (vs: seq<Option<V.Value>>)
    requires WellTyped(c)
    ensures |vs| == |c.slots|
    ensures c.dataType.Null? ==> forall i :: 0 <= i < |vs| ==> vs[i] == Some(V.Null)
    ensures c.dataType.Unlisted? ==> forall i :: 0 <= i < |vs| ==> vs[i] == Some(V.Fallback)
    ensures IsPlain(c.dataType) ==> forall i :: 0 <= i < |vs| ==>
              vs[i] == if c.slots[i].None? then None else Some(PlainValue(c.dataType, c.slots[i].value))
  {
    var n := |c.slots|;
    match c.dataType
    case Null => Constant(n, V.Null)
    case Duration(u) => DurationColumn(c.slots, u)
    case Timestamp(u, _) => TimestampColumn(c.slots, u)
    case Time32(u) => Time32Column(c.slots, u)
    case Time64(u) => Time64Column(c.slots, u)
    case Unlisted(_) => Constant(n, V.Fallback)
    case _ => PlainColumn(c.dataType, c.slots)
  }

  /**
   * Time values carry their unit: a non-null slot of a duration or timestamp
   * column, or of a time column with a supported unit, becomes the payload
   * tagged with `UnitText` of the unit.
   */
  lemma TemporalCells(c: Column, i: nat)
    requires WellTyped(c) && i < |c.slots| && c.slots[i].Some?
    ensures c.dataType.Duration? ==> ConvertColumn(c)[i] == Some(V.Time64(c.slots[i].value.i, UnitText(c.dataType.durationUnit)))
    ensures c.dataType.Timestamp? ==> ConvertColumn(c)[i] == Some(V.Time64(c.slots[i].value.i, UnitText(c.dataType.timestampUnit)))
    ensures c.dataType.Time32? && (c.dataType.time32Unit == Second || c.dataType.time32Unit == Millisecond) ==>
              ConvertColumn(c)[i] == Some(V.Time32(c.slots[i].value.i, UnitText(c.dataType.time32Unit)))
    ensures c.dataType.Time64? && (c.dataType.time64Unit == Microsecond || c.dataType.time64Unit == Nanosecond) ==>
              ConvertColumn(c)[i] == Some(V.Time64(c.slots[i].value.i, UnitText(c.dataType.time64Unit)))
  {
  }

  /** An unsupported time unit fills the column with the unsupported text, never `None`. */
  lemma UnsupportedUnits(c: Column, i: nat)
    requires WellTyped(c) && i < |c.slots|
    requires (c.dataType.Time32? && c.dataType.time32Unit in {Microsecond, Nanosecond}) ||
             (c.dataType.Time64? && c.dataType.time64Unit in {Second, Millisecond})
    ensures ConvertColumn(c)[i] == Some(V.String(UnsupportedText))
  {
  }

  // ---------------------------------------------------------------------------
  // Transposition
  // ---------------------------------------------------------------------------

  /**
   * Row `r` after inserting the columns in order: a later column of the same
   * name overwrites an earlier one, as `HashMap::insert` does.
   */
  function RowOf(cols: seq<Column>, r: nat): Row
    requires forall c :: 0 <= c < |cols| ==> r < |cols[c].slots| && WellTyped(cols[c])
    decreases |cols|
  {
    if |cols| == 0 then map[]
    else
      var last := cols[|cols| - 1];
      RowOf(cols[..|cols| - 1], r)[last.name := ConvertColumn(last)[r]]
  }

  /** The position of the last column called `name`. */
  function LastNamed(cols: seq<Column>, name: string): (k: Option<nat>)
    ensures k.Some? ==> k.value < |cols| && cols[k.value].name == name &&
                        forall j :: k.value < j < |cols| ==> cols[j].name != name
    ensures k.None? ==> forall j :: 0 <= j < |cols| ==> cols[j].name != name
    decreases |cols|
  {
    if |cols| == 0 then None
    else if cols[|cols| - 1].name == name then Some(|cols| - 1)
    else LastNamed(cols[..|cols| - 1], name)
  }

  /**
   * A row has one key per column name, and under each name the cell of the last
   * column so named.
   */
  lemma {:induction false} RowOfContents(cols: seq<Column>, r: nat, name: string)
    requires forall c :: 0 <= c < |cols| ==> r < |cols[c].slots| && WellTyped(cols[c])
    ensures name in RowOf(cols, r) <==> LastNamed(cols, name).Some?
    ensures name in RowOf(cols, r) ==> RowOf(cols, r)[name] == ConvertColumn(cols[LastNamed(cols, name).value])[r]
    decreases |cols|
  {
    if |cols| > 0 {
      RowOfContents(cols[..|cols| - 1], r, name);
    }
  }

  /** The rows of a well-formed batch. */
  function Rows(b: Batch): (rows: seq<Row>)
    requires WellFormed(b)
    ensures |rows| == b.rowCount
  {
    seq(b.rowCount, r requires 0 <= r < b.rowCount => RowOf(b.columns, r))
  }

  /**
   * `serialize`: `None` for an error, otherwise `row_count` rows in which row `r`
   * maps every column name to that column's entry `r` (the last column, when
   * names repeat).
   */
  function Serialize(batch: Result<Batch, FlightError>): (out: Option<seq<Row>>)
    requires batch.Success? ==> WellFormed(batch.value)
    ensures out.None? <==> batch.Failure?
    ensures out.Some? ==> |out.value| == batch.value.rowCount
    ensures out.Some? ==> forall r, name :: 0 <= r < |out.value| ==>
              (name in out.value[r] <==> LastNamed(batch.value.columns, name).Some?)
    ensures out.Some? ==> forall r, name :: 0 <= r < |out.value| && name in out.value[r] ==>
              out.value[r][name] == ConvertColumn(batch.value.columns[LastNamed(batch.value.columns, name).value])[r]
  {
    match batch
    case Failure(_) => None
    case Success(b) =>
      var rows := Rows(b);
      forall r, name | 0 <= r < |rows| ensures
        && (name in rows[r] <==> LastNamed(b.columns, name).Some?)
        && (name in rows[r] ==> rows[r][name] == ConvertColumn(b.columns[LastNamed(b.columns, name).value])[r])
      {
        RowOfContents(b.columns, r, name);
      }
      Some(rows)
  }

  /** Adding a column to the prefix updates each row under that column's name. */
  lemma RowOfStep(b: Batch, c: nat, r: nat)
    requires WellFormed(b) && c < |b.columns| && r < b.rowCount
    ensures RowOf(b.columns[..c + 1], r) == RowOf(b.columns[..c], r)[b.columns[c].name := ConvertColumn(b.columns[c])[r]]
  {
    assert b.columns[..c + 1][..c] == b.columns[..c];
  }

  /**
   * The two loops of `serialize`: start from `row_count` empty maps, then for
   * each column insert its entry `r` into row `r`.
   */
  method Transpose(b: Batch) returns (rows: seq<Row>)
    requires WellFormed(b)
    ensures rows == Rows(b)
  {
    rows := seq(b.rowCount, _ => map[]);
    var c := 0;
    while c < |b.columns|
      invariant 0 <= c <= |b.columns|
      invariant |rows| == b.rowCount
      invariant forall r :: 0 <= r < b.rowCount ==> rows[r] == RowOf(b.columns[..c], r)
    {
      rows := InsertColumn(b, c, rows);
      c := c + 1;
    }
    assert b.columns[..|b.columns|] == b.columns;
  }

  /** The inner loop: column `c`'s entry `r` goes into row `r`. */
  method InsertColumn(b: Batch, c: nat, before: seq<Row>) returns (rows: seq<Row>)
    requires WellFormed(b) && c < |b.columns|
    requires |before| == b.rowCount
    requires forall r :: 0 <= r < b.rowCount ==> before[r] == RowOf(b.columns[..c], r)
    ensures |rows| == b.rowCount
    ensures forall r :: 0 <= r < b.rowCount ==> rows[r] == RowOf(b.columns[..c + 1], r)
  {
    var col := b.columns[c];
    var values := ConvertColumn(col);
    rows := before;
    var r := 0;
    while r < |values|
      invariant 0 <= r <= |values| == b.rowCount
      invariant |rows| == b.rowCount
      invariant forall k :: 0 <= k < r ==> rows[k] == RowOf(b.columns[..c + 1], k)
      invariant forall k :: r <= k < b.rowCount ==> rows[k] == RowOf(b.columns[..c], k)
    {
      RowOfStep(b, c, r);
      rows := rows[r := rows[r][col.name := values[r]]];
      r := r + 1;
    }
  }
}
