/**
 * The cell values a query yields (`Value` of `src/lib.rs`) and how each is
 * handed to the JavaScript host.
 */
module Values {
  import opened Wrappers
  import opened Numbers
  import opened Text

  /** `Value`: one cell of a query result. Floats are kept as bit patterns. */
  datatype Value =
    | Time32(t32: I32, unit32: string)
    | Time64(t64: I64, unit64: string)
    | Int8(i8: I8)
    | Int16(i16: I16)
    | Int32(i32: I32)
    | Int64(i64: I64)
    | UInt8(u8: U8)
    | UInt16(u16: U16)
    | UInt32(u32: U32)
    | UInt64(u64: U64)
    | UInt128(u128: U128)
    | F16(f16: Binary32)
    | F32(f32: Binary32)
    | F64(f64: Binary64)
    | Text(text: string)
    | String(str: string)
    | Bool(b: bool)
    | Date32(d32: I32)
    | Date64(d64: I64)
    | Null
    | Fallback

  /** `FALLBACK_STR`: what an unsupported column type shows as. */
  const FallbackText: string := "<unsupported type>"

  /**
   * A value on the host side. The width of a host integer (number or big
   * integer) is decided by the binding layer and is not modelled.
   */
  datatype HostValue =
    | HostInt(n: int)
    | HostFloat32(f32: Binary32)
    | HostFloat64(f64: Binary64)
    | HostString(s: string)
    | HostBool(b: bool)
    | HostNull

  /** `format!("{}_{}", value, unit)`: a time value with its unit. */
  function TimeString(v: int, unit: string): (s: string)
    ensures |s| > |unit|
  {
    IntToString(v) + "_" + unit
  }

  /** Reads a time string back: the number before the first `_`, the unit after it. */
  function ParseTimeString(s: string): Option<(int, string)> {
    match IndexOf(s, '_')
    case None => None
    case Some(k) =>
      match ParseInt(s[..k])
      case Some(v) => Some((v, s[k + 1..]))
      case None => None
  }

  /** A time value and its unit are recovered from the string the host receives. */
  lemma TimeStringRoundTrip(v: int, unit: string)
    ensures ParseTimeString(TimeString(v, unit)) == Some((v, unit))
  {
    var s := TimeString(v, unit);
    IndexOfPrefix(IntToString(v), '_', unit);
    assert s[..|IntToString(v)|] == IntToString(v);
    assert s[|IntToString(v)| + 1..] == unit;
    IntToStringRoundTrip(v);
  }

  /** The fallback text is not a time string, so the host can tell the two apart. */
  lemma FallbackIsNotTime()
    ensures ParseTimeString(FallbackText) == None
  {
    assert '_' !in FallbackText;
  }

  /**
   * `to_napi_value`: integers and dates as host integers, floats as floats,
   * both string kinds as strings, time values as `"<v>_<unit>"`, `Null` as host
   * null and `Fallback` as the fallback text.
   */
  function ToHost(v: Value): (h: HostValue)
    ensures h == HostNull <==> v == Null
    ensures h.HostBool? <==> v.Bool?
    ensures h.HostInt? <==> v.Int8? || v.Int16? || v.Int32? || v.Int64? || v.Date32? || v.Date64?
                            || v.UInt8? || v.UInt16? || v.UInt32? || v.UInt64? || v.UInt128?
    ensures h.HostString? <==> v.Text? || v.String? || v.Time32? || v.Time64? || v.Fallback?
    ensures (v.Time32? || v.Time64?) ==> ParseTimeString(h.s) == Some(
              if v.Time32? then (v.t32 as int, v.unit32) else (v.t64 as int, v.unit64))
  {
    match v
    case Int8(i) => HostInt(i)
    case Int16(i) => HostInt(i)
    case Int32(i) => HostInt(i)
    case Date32(i) => HostInt(i)
    case Int64(i) => HostInt(i)
    case Date64(i) => HostInt(i)
    case UInt8(u) => HostInt(u)
    case UInt16(u) => HostInt(u)
    case UInt32(u) => HostInt(u)
    case UInt64(u) => HostInt(u)
    case UInt128(u) => HostInt(u)
    case F16(f) => HostFloat32(f)
    case F32(f) => HostFloat32(f)
    case F64(f) => HostFloat64(f)
    case Text(t) => HostString(t)
    case Null => HostNull
    case Bool(b) => HostBool(b)
    case Time32(t, u) => TimeStringRoundTrip(t, u); HostString(TimeString(t, u))
    case Time64(t, u) => TimeStringRoundTrip(t, u); HostString(TimeString(t, u))
    case String(s) => HostString(s)
    case Fallback => HostString(FallbackText)
  }

  /** A date reaches the host as the integer of the same width would. */
  lemma DatesRenderAsIntegers(d: I32, e: I64)
    ensures ToHost(Date32(d)) == ToHost(Int32(d)) && ToHost(Date64(e)) == ToHost(Int64(e))
  {
  }

  /** Both string kinds and the fallback arrive as the very text they carry. */
  lemma StringsRenderVerbatim(s: string)
    ensures ToHost(Text(s)) == HostString(s) && ToHost(String(s)) == HostString(s)
    ensures ToHost(Fallback) == HostString(FallbackText)
  {
  }

  /**
   * The host cannot tell `Fallback` from a `String` holding the fallback text,
   * which is what unsupported time units produce.
   */
  lemma FallbackLooksLikeString()
    ensures ToHost(Fallback) == ToHost(String(FallbackText))
  {
  }
}
