/**
 * A record-batch column as the serializers see it: its declared Arrow type and
 * one optional payload per row. The Arrow arrays themselves are not modelled;
 * a column is well typed when every payload fits its declared type, which is
 * what the typed array accessors guarantee.
 */
module Columns {
  import opened Wrappers
  import opened Numbers
  import V = Values

  /** Arrow's `TimeUnit`. */
  datatype TimeUnit = Second | Millisecond | Microsecond | Nanosecond

  /**
   * Arrow's `DataType`, as far as the serializers distinguish it; every other
   * type (lists, structs, binaries, decimals, ...) is `Unlisted`.
   */
  datatype DataType =
    | Null
    | Boolean
    | Utf8View
    | Int8 | Int16 | Int32 | Int64
    | UInt8 | UInt16 | UInt32 | UInt64
    | Float16 | Float32 | Float64
    | Date32 | Date64
    | Utf8 | LargeUtf8
    | Duration(durationUnit: TimeUnit)
    | Timestamp(timestampUnit: TimeUnit, timezone: Option<string>)
    | Time32(time32Unit: TimeUnit)
    | Time64(time64Unit: TimeUnit)
    | Unlisted(typeName: string)

  /**
   * The payload of a non-null slot. A `Float16` slot holds the value already
   * widened to `f32`, as `to_f32` gives it.
   */
  datatype Payload =
    | BoolPayload(b: bool)
    | IntPayload(i: int)
    | Float32Payload(f32: Binary32)
    | Float64Payload(f64: Binary64)
    | TextPayload(s: string)

  predicate IsI32(p: Payload) {
    p.IntPayload? && -0x8000_0000 <= p.i < 0x8000_0000
  }

  predicate IsI64(p: Payload) {
    p.IntPayload? && -0x8000_0000_0000_0000 <= p.i < 0x8000_0000_0000_0000
  }

  /** Whether a payload can be read from an array of type `t`. */
  predicate Fits(t: DataType, p: Payload) {
    match t
    case Null => true
    case Unlisted(_) => true
    case Boolean => p.BoolPayload?
    case Utf8View => p.TextPayload?
    case Utf8 => p.TextPayload?
    case LargeUtf8 => p.TextPayload?
    case Int8 => p.IntPayload? && -0x80 <= p.i < 0x80
    case Int16 => p.IntPayload? && -0x8000 <= p.i < 0x8000
    case Int32 => IsI32(p)
    case Int64 => IsI64(p)
    case UInt8 => p.IntPayload? && 0 <= p.i < 0x100
    case UInt16 => p.IntPayload? && 0 <= p.i < 0x1_0000
    case UInt32 => p.IntPayload? && 0 <= p.i < 0x1_0000_0000
    case UInt64 => p.IntPayload? && 0 <= p.i < 0x1_0000_0000_0000_0000
    case Float16 => p.Float32Payload?
    case Float32 => p.Float32Payload?
    case Float64 => p.Float64Payload?
    case Date32 => IsI32(p)
    case Date64 => IsI64(p)
    case Time32(_) => IsI32(p)
    case Duration(_) => IsI64(p)
    case Timestamp(_, _) => IsI64(p)
    case Time64(_) => IsI64(p)
  }

  /** A named column: a schema field and its array. */
  datatype Column = Column(name: string, dataType: DataType, slots: seq<Option<Payload>>)

  predicate WellTyped(c: Column) {
    forall i :: 0 <= i < |c.slots| && c.slots[i].Some? ==> Fits(c.dataType, c.slots[i].value)
  }

  /** The unit tag attached to a time value: `s`, `ms`, `µs` or `ns`. */
  function UnitText(u: TimeUnit): string {
    match u
    case Second => "s"
    case Millisecond => "ms"
    case Microsecond => "\U{00B5}s"
    case Nanosecond => "ns"
  }

  /** Distinct units get distinct tags. */
  lemma UnitTextInjective(u: TimeUnit, w: TimeUnit)
    ensures UnitText(u) == UnitText(w) ==> u == w
  {
  }

  /** What the serializers write for the time units they do not support. */
  const UnsupportedText: string := "<unsupported type>"

  /** The types read through a typed array without a time unit. */
  predicate IsPlain(t: DataType) {
    !(t.Null? || t.Unlisted? || t.Duration? || t.Timestamp? || t.Time32? || t.Time64?)
  }

  /**
   * The `Value` for a non-null slot of a plain type: the variant named after the
   * type, except that `Utf8View` gives `Text` and `Utf8`/`LargeUtf8` give `String`.
   * Both string arms read the column as an `i32`-offset `StringArray`; for a
   * `LargeUtf8` column that read is assumed to succeed here.
   */
  function PlainValue(t: DataType, p: Payload): (v: V.Value)
    requires IsPlain(t) && Fits(t, p)
    ensures (t.Utf8? || t.LargeUtf8?) <==> v.String?
    ensures t.Utf8View? <==> v.Text?
    ensures v != V.Null && v != V.Fallback
  {
    match t
    case Boolean => V.Bool(p.b)
    case Utf8View => V.Text(p.s)
    case Int8 => V.Int8(p.i)
    case Int16 => V.Int16(p.i)
    case Int32 => V.Int32(p.i)
    case Int64 => V.Int64(p.i)
    case UInt8 => V.UInt8(p.i)
    case UInt16 => V.UInt16(p.i)
    case UInt32 => V.UInt32(p.i)
    case UInt64 => V.UInt64(p.i)
    case Float16 => V.F16(p.f32)
    case Float32 => V.F32(p.f32)
    case Float64 => V.F64(p.f64)
    case Date32 => V.Date32(p.i)
    case Date64 => V.Date64(p.i)
    case Utf8 => V.String(p.s)
    case LargeUtf8 => V.String(p.s)
  }

  /** The payload read back from a plain value: nothing is lost in the conversion. */
  function PayloadOf(v: V.Value): Option<Payload> {
    match v
    case Bool(b) => Some(BoolPayload(b))
    case Text(s) => Some(TextPayload(s))
    case String(s) => Some(TextPayload(s))
    case Int8(i) => Some(IntPayload(i))
    case Int16(i) => Some(IntPayload(i))
    case Int32(i) => Some(IntPayload(i))
    case Int64(i) => Some(IntPayload(i))
    case UInt8(i) => Some(IntPayload(i))
    case UInt16(i) => Some(IntPayload(i))
    case UInt32(i) => Some(IntPayload(i))
    case UInt64(i) => Some(IntPayload(i))
    case UInt128(i) => Some(IntPayload(i))
    case F16(f) => Some(Float32Payload(f))
    case F32(f) => Some(Float32Payload(f))
    case F64(f) => Some(Float64Payload(f))
    case Date32(i) => Some(IntPayload(i))
    case Date64(i) => Some(IntPayload(i))
    case Time32(i, _) => Some(IntPayload(i))
    case Time64(i, _) => Some(IntPayload(i))
    case Null => None
    case Fallback => None
  }

  /** Every plain payload survives its conversion to a value. */
  lemma PlainValueLossless(t: DataType, p: Payload)
    requires IsPlain(t) && Fits(t, p)
    ensures PayloadOf(PlainValue(t, p)) == Some(p)
  {
  }
}
