/**
 * The closed five-variant field type shared by both `PointValues` snapshots:
 * `PointFieldType` (the declared type) and the `Either5<bool, f64, u32, i64, String>`
 * payload the setters take.
 */
module Fields {
  import opened Wrappers
  import opened Numbers

  /** `PointFieldType`. */
  datatype FieldType = FloatType | IntegerType | UIntegerType | StringType | BooleanType

  /** A field payload; `PointFieldValue` in one snapshot, the `Either5` argument in both. */
  datatype FieldValue =
    | FloatValue(f: Binary64)
    | IntegerValue(i: I64)
    | UIntegerValue(u: U32)
    | StringValue(s: string)
    | BooleanValue(b: bool)

  /** The errors the point-value operations raise, one constructor per message. */
  datatype FieldError =
    | TypeMismatch(provided: FieldType, expected: FieldType)
    | UnexpectedType(name: string, actual: FieldType, expected: FieldType)
    | NotA(expected: FieldType)
    | NotFound(name: string)

  /** The type a payload variant stands for. */
  function TypeOf(v: FieldValue): FieldType {
    match v
    case FloatValue(_) => FloatType
    case IntegerValue(_) => IntegerType
    case UIntegerValue(_) => UIntegerType
    case StringValue(_) => StringType
    case BooleanValue(_) => BooleanType
  }

  /**
   * The check at the top of every arm of `set_field`: the declared type defaults
   * to the payload's own type, and any other declared type is a mismatch.
   */
  function CheckType(v: FieldValue, fieldType: Option<FieldType>): (r: Result<FieldType, FieldError>)
    ensures r.Success? <==> fieldType.None? || fieldType.value == TypeOf(v)
    ensures r.Success? ==> r.value == TypeOf(v)
    ensures r.Failure? ==> r.error == TypeMismatch(TypeOf(v), fieldType.value)
  {
    var t := fieldType.GetOr(TypeOf(v));
    if t != TypeOf(v) then Failure(TypeMismatch(TypeOf(v), t)) else Success(t)
  }
}
