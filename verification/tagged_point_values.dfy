/**
 * `PointValues` of `src/Point/point_values.rs`: a measurement, an optional `u32`
 * timestamp, and two `BTreeMap`s, tags (name to value) and fields (name to a
 * `FieldEntry` that carries its declared type beside its payload).
 *
 * The Rust struct is mutated in place; here every mutator returns the new record,
 * and a mutator that can fail returns `Result<PointValues, FieldError>` whose
 * `Failure` stands for "error returned, record untouched".
 */
module TaggedPointValues {
  import opened Wrappers
  import opened Numbers
  import opened Text
  import opened Fields
  import SortedMap

  /** `FieldEntry`: a payload beside the `PointFieldType` it was stored under. */
  datatype FieldEntry = FieldEntry(tag: FieldType, value: FieldValue)

  datatype PointValues = PointValues(
    name: Option<string>,
    time: Option<U32>,
    tags: seq<SortedMap.Entry<string>>,
    fields: seq<SortedMap.Entry<FieldEntry>>)

  /** A stored entry's type tag matches its payload variant. */
  predicate Agrees(e: FieldEntry) {
    e.tag == TypeOf(e.value)
  }

  /**
   * The invariant every reachable record keeps: both maps are sorted, and every
   * stored field's tag agrees with its payload.
   */
  predicate Valid(p: PointValues) {
    && SortedMap.Valid(p.tags)
    && SortedMap.Valid(p.fields)
    && forall i :: 0 <= i < |p.fields| ==> Agrees(p.fields[i].value)
  }

  /** The stored entry under `name`, if any. */
  function Lookup(p: PointValues, name: string): Option<FieldEntry> {
    SortedMap.Get(p.fields, name)
  }

  lemma LookupAgrees(p: PointValues, name: string)
    requires Valid(p)
    ensures Lookup(p, name).Some? ==> Agrees(Lookup(p, name).value)
  {
    if Lookup(p, name).Some? {
      SortedMap.KeySetIndex(p.fields, name);
      var i :| 0 <= i < |p.fields| && p.fields[i].key == name;
      SortedMap.GetAt(p.fields, i);
    }
  }

  /** `PointValues::new` and `PointValues::from_measurement` (identical bodies). */
  function New(measurement: string): (p: PointValues)
    ensures Valid(p)
    ensures p.name == Some(measurement) && p.time == None
    ensures forall n :: GetTag(p, n) == None && GetFieldType(p, n) == None
    ensures !HasFields(p) && TagNames(p) == [] && GetFieldNames(p) == []
  {
    PointValues(Some(measurement), None, [], [])
  }

  /** `set_timestamp`: only the timestamp changes. */
  function SetTimestamp(p: PointValues, time: U32): (r: PointValues)
    ensures r.time == Some(time)
    ensures r.name == p.name && r.tags == p.tags && r.fields == p.fields
  {
    p.(time := Some(time))
  }

  // ---------------------------------------------------------------------------
  // Tags
  // ---------------------------------------------------------------------------

  /** `get_tag`. */
  function GetTag(p: PointValues, tagName: string): (r: Option<string>)
    ensures r.Some? <==> tagName in SortedMap.KeySet(p.tags)
  {
    SortedMap.Get(p.tags, tagName)
  }

  /** `set_tag`: the new value is read back, other tags and all fields are untouched. */
  function SetTag(p: PointValues, tagName: string, tagValue: string): (r: PointValues)
    requires Valid(p)
    ensures Valid(r)
    ensures GetTag(r, tagName) == Some(tagValue)
    ensures forall n :: n != tagName ==> GetTag(r, n) == GetTag(p, n)
    ensures r.fields == p.fields && r.name == p.name && r.time == p.time
  {
    p.(tags := SortedMap.Insert(p.tags, tagName, tagValue))
  }

  /** `remove_tag`: removing an absent tag is not an error. */
  function RemoveTag(p: PointValues, tagName: string): (r: PointValues)
    requires Valid(p)
    ensures Valid(r)
    ensures GetTag(r, tagName) == None
    ensures forall n :: n != tagName ==> GetTag(r, n) == GetTag(p, n)
    ensures r.fields == p.fields && r.name == p.name && r.time == p.time
  {
    p.(tags := SortedMap.Remove(p.tags, tagName))
  }

  /** `tag_names`: the tag names in ascending order, each once. */
  function TagNames(p: PointValues): (ns: seq<string>)
    requires Valid(p)
    ensures StrictlyAscending(ns)
    ensures forall n :: n in ns <==> GetTag(p, n).Some?
  {
    forall n ensures n in SortedMap.Keys(p.tags) <==> GetTag(p, n).Some? {
      SortedMap.KeysMembership(p.tags, n);
    }
    SortedMap.Keys(p.tags)
  }

  // ---------------------------------------------------------------------------
  // Fields
  // ---------------------------------------------------------------------------

  /**
   * The five typed setters `set_float_field` … `set_boolean_field`: each inserts
   * the payload under the type of its own variant, so the tag always agrees.
   */
  function SetTypedField(p: PointValues, name: string, v: FieldValue): (r: PointValues)
    requires Valid(p)
    ensures Valid(r)
    ensures Lookup(r, name) == Some(FieldEntry(TypeOf(v), v))
    ensures forall n :: n != name ==> Lookup(r, n) == Lookup(p, n)
    ensures r.tags == p.tags && r.name == p.name && r.time == p.time
  {
    var fields := SortedMap.Insert(p.fields, name, FieldEntry(TypeOf(v), v));
    var r := p.(fields := fields);
    assert Valid(r) by {
      forall i | 0 <= i < |fields| ensures Agrees(fields[i].value) {
        var k := fields[i].key;
        SortedMap.GetAt(fields, i);
        if k != name {
          LookupAgrees(p, k);
        }
      }
    }
    r
  }

  /** `get_field_type`: the type tag stored with the field. */
  function GetFieldType(p: PointValues, name: string): (r: Option<FieldType>)
    ensures r.Some? <==> name in SortedMap.KeySet(p.fields)
    ensures r.Some? ==> r.value == Lookup(p, name).value.tag
  {
    match Lookup(p, name)
    case Some(entry) => Some(entry.tag)
    case None => None
  }

  /**
   * `get_field`: absent is `Ok(None)`; present under another type than an
   * expected one is an error; otherwise the payload.
   */
  function GetField(p: PointValues, name: string, expectedType: Option<FieldType>)
    : (r: Result<Option<FieldValue>, FieldError>)
    requires Valid(p)
    ensures Lookup(p, name).None? ==> r == Success(None)
    ensures r.Failure? <==> Lookup(p, name).Some? && expectedType.Some? && expectedType.value != TypeOf(Lookup(p, name).value.value)
    ensures r.Success? && Lookup(p, name).Some? ==> r.value == Some(Lookup(p, name).value.value)
  {
    LookupAgrees(p, name);
    match Lookup(p, name)
    case None => Success(None)
    case Some(entry) =>
      if expectedType.Some? && entry.tag != expectedType.value then
        Failure(UnexpectedType(name, entry.tag, expectedType.value))
      else
        Success(Some(entry.value))
  }

  /**
   * The five typed getters `get_float_field` … `get_boolean_field`, at type `t`:
   * `get_field(name, Some(t))?`, then the payload if its variant is `t`, an error
   * for any other variant, and `Ok(None)` for an absent field.
   */
  function GetTypedField(p: PointValues, name: string, t: FieldType): (r: Result<Option<FieldValue>, FieldError>)
    requires Valid(p)
    ensures r == Success(None) <==> GetFieldType(p, name).None?
    ensures r.Success? && r.value.Some? <==> GetFieldType(p, name) == Some(t)
    ensures r.Success? && r.value.Some? ==> TypeOf(r.value.value) == t && Lookup(p, name) == Some(FieldEntry(t, r.value.value))
  {
    LookupAgrees(p, name);
    match GetField(p, name, Some(t))
    case Failure(e) => Failure(e)
    case Success(None) => Success(None)
    case Success(Some(v)) => if TypeOf(v) == t then Success(Some(v)) else Failure(NotA(t))
  }

  /**
   * `set_field`: the declared type must match the payload (or be absent); on a
   * mismatch the record is left unchanged, otherwise the field is (over)written.
   */
  function SetField(p: PointValues, name: string, v: FieldValue, fieldType: Option<FieldType>)
    : (r: Result<PointValues, FieldError>)
    requires Valid(p)
    ensures r.Success? <==> fieldType.None? || fieldType.value == TypeOf(v)
    ensures r.Success? ==> Valid(r.value) && Lookup(r.value, name) == Some(FieldEntry(TypeOf(v), v))
    ensures r.Success? ==> forall n :: n != name ==> Lookup(r.value, n) == Lookup(p, n)
    ensures r.Success? ==> r.value.tags == p.tags && r.value.name == p.name && r.value.time == p.time
  {
    match CheckType(v, fieldType)
    case Failure(e) => Failure(e)
    case Success(t) =>
      var fields := SortedMap.Insert(p.fields, name, FieldEntry(t, v));
      assert p.(fields := fields) == SetTypedField(p, name, v);
      Success(p.(fields := fields))
  }

  /** A field written by `set_field` under its declared type is read back by `get_typed_field` under that type. */
  lemma SetThenGetTyped(p: PointValues, name: string, v: FieldValue, t: FieldType)
    requires Valid(p)
    ensures SetField(p, name, v, Some(t)).Success? <==> TypeOf(v) == t
    ensures SetField(p, name, v, Some(t)).Success? ==>
              GetTypedField(SetField(p, name, v, Some(t)).value, name, t) == Success(Some(v))
  {
    var r := SetField(p, name, v, Some(t));
    if r.Success? {
      assert GetFieldType(r.value, name) == Some(t);
    }
  }

  /** No declared type is unusable: for each one, some payload passes `set_field`'s check. */
  lemma EveryTypeSettable(p: PointValues, name: string, t: FieldType)
    requires Valid(p)
    ensures exists v :: SetField(p, name, v, Some(t)).Success?
  {
    var v := match t
      case FloatType => FloatValue(Binary64(0))
      case IntegerType => IntegerValue(0)
      case UIntegerType => UIntegerValue(0)
      case StringType => StringValue("")
      case BooleanType => BooleanValue(false);
    assert SetField(p, name, v, Some(t)).Success?;
  }

  /** The value `set_fields` leaves under `name`: the last pair for it wins. */
  function LastValue(values: seq<(string, FieldValue)>, name: string): Option<FieldValue> {
    SortedMap.Lookup(values, name)
  }

  /**
   * `set_fields`: `set_field(name, value, None)?` for each pair in the map's
   * iteration order, stopping at the first error.
   */
  function SetFields(p: PointValues, values: seq<(string, FieldValue)>): (r: Result<PointValues, FieldError>)
    requires Valid(p)
    ensures r.Success?
    ensures Valid(r.value)
    ensures forall n :: Lookup(r.value, n) ==
              match LastValue(values, n)
              case Some(v) => Some(FieldEntry(TypeOf(v), v))
              case None => Lookup(p, n)
    ensures r.value.tags == p.tags && r.value.name == p.name && r.value.time == p.time
    decreases |values|
  {
    if |values| == 0 then Success(p)
    else
      var init := values[..|values| - 1];
      var (name, v) := values[|values| - 1];
      match SetFields(p, init)
      case Failure(e) => Failure(e)
      case Success(q) => SetField(q, name, v, None)
  }

  /**
   * Whatever order the map is iterated in, `set_fields` produces the same record:
   * two pair lists with the same last value per name give equal results.
   */
  lemma SetFieldsOrderIndependent(p: PointValues, a: seq<(string, FieldValue)>, b: seq<(string, FieldValue)>)
    requires Valid(p)
    requires forall n :: LastValue(a, n) == LastValue(b, n)
    ensures SetFields(p, a) == SetFields(p, b)
  {
    var ra, rb := SetFields(p, a).value, SetFields(p, b).value;
    forall n ensures SortedMap.Get(ra.fields, n) == SortedMap.Get(rb.fields, n) {
      assert Lookup(ra, n) == Lookup(rb, n);
    }
    SortedMap.Canonical(ra.fields, rb.fields);
  }

  /** `remove_field`: an error for an absent field, otherwise exactly that field goes. */
  function RemoveField(p: PointValues, name: string): (r: Result<PointValues, FieldError>)
    requires Valid(p)
    ensures r.Failure? <==> Lookup(p, name).None?
    ensures r.Failure? ==> r.error == NotFound(name)
    ensures r.Success? ==> Valid(r.value) && Lookup(r.value, name) == None
    ensures r.Success? ==> forall n :: n != name ==> Lookup(r.value, n) == Lookup(p, n)
    ensures r.Success? ==> r.value.tags == p.tags && r.value.name == p.name && r.value.time == p.time
  {
    if Lookup(p, name).None? then Failure(NotFound(name))
    else
      var fields := SortedMap.Remove(p.fields, name);
      var r := p.(fields := fields);
      assert Valid(r) by {
        forall i | 0 <= i < |fields| ensures Agrees(fields[i].value) {
          SortedMap.GetAt(fields, i);
          LookupAgrees(p, fields[i].key);
        }
      }
      Success(r)
  }

  /** `get_field_names`: the field names in ascending order, each once. */
  function GetFieldNames(p: PointValues): (ns: seq<string>)
    requires Valid(p)
    ensures StrictlyAscending(ns)
    ensures forall n :: n in ns <==> GetFieldType(p, n).Some?
  {
    forall n ensures n in SortedMap.Keys(p.fields) <==> GetFieldType(p, n).Some? {
      SortedMap.KeysMembership(p.fields, n);
    }
    SortedMap.Keys(p.fields)
  }

  /** `has_fields`: some name has a field. */
  function HasFields(p: PointValues): (b: bool)
    ensures b <==> exists n :: GetFieldType(p, n).Some?
  {
    if |p.fields| > 0 then
      assert GetFieldType(p, p.fields[0].key).Some?;
      true
    else
      false
  }
}
