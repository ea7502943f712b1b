/**
 * `PointValues` of `src/point/point_values.rs`: the same record as the other
 * snapshot, except that a field is stored as a bare `PointFieldValue` whose
 * variant is its type, and `get_field` no longer checks an expected type.
 */
module PlainPointValues {
  import opened Wrappers
  import opened Numbers
  import opened Text
  import opened Fields
  import SortedMap

  datatype PointValues = PointValues(
    name: Option<string>,
    time: Option<U32>,
    tags: seq<SortedMap.Entry<string>>,
    fields: seq<SortedMap.Entry<FieldValue>>)

  /** Both maps are sorted by name. */
  predicate Valid(p: PointValues) {
    SortedMap.Valid(p.tags) && SortedMap.Valid(p.fields)
  }

  /** The stored payload under `name`, if any. */
  function Lookup(p: PointValues, name: string): Option<FieldValue> {
    SortedMap.Get(p.fields, name)
  }

  /** `PointValues::new` and `PointValues::from_measurement`. */
  function New(measurement: string): (p: PointValues)
    ensures Valid(p)
    ensures p.name == Some(measurement) && p.time == None
    ensures forall n :: GetTag(p, n) == None && GetFieldType(p, n) == None
    ensures !HasFields(p) && TagNames(p) == [] && GetFieldNames(p) == []
  {
    PointValues(Some(measurement), None, [], [])
  }

  /** `set_timestamp`. */
  function SetTimestamp(p: PointValues, time: U32): (r: PointValues)
    ensures r.time == Some(time)
    ensures r.name == p.name && r.tags == p.tags && r.fields == p.fields
  {
    p.(time := Some(time))
  }

  /** `get_tag`. */
  function GetTag(p: PointValues, tagName: string): (r: Option<string>)
    ensures r.Some? <==> tagName in SortedMap.KeySet(p.tags)
  {
    SortedMap.Get(p.tags, tagName)
  }

  /** `set_tag`. */
  function SetTag(p: PointValues, tagName: string, tagValue: string): (r: PointValues)
    requires Valid(p)
    ensures Valid(r)
    ensures GetTag(r, tagName) == Some(tagValue)
    ensures forall n :: n != tagName ==> GetTag(r, n) == GetTag(p, n)
    ensures r.fields == p.fields && r.name == p.name && r.time == p.time
  {
    p.(tags := SortedMap.Insert(p.tags, tagName, tagValue))
  }

  /** `remove_tag`. */
  function RemoveTag(p: PointValues, tagName: string): (r: PointValues)
    requires Valid(p)
    ensures Valid(r)
    ensures GetTag(r, tagName) == None
    ensures forall n :: n != tagName ==> GetTag(r, n) == GetTag(p, n)
    ensures r.fields == p.fields && r.name == p.name && r.time == p.time
  {
    p.(tags := SortedMap.Remove(p.tags, tagName))
  }

  /** `tag_names`: ascending, each name once. */
  function TagNames(p: PointValues): (ns: seq<string>)
    requires Valid(p)
    ensures StrictlyAscending(ns)
    ensures forall n :: n in ns <==> GetTag(p, n).Some?
  {
    forall n ensures n in SortedMap.Keys(p.tags) <==> GetTag(p, n).Some? {
      SortedMap.KeysMembership(p.tags, n);
    }
    SortedMap.Keys(p.tags)
  }

  /** The five typed setters: each stores its payload as is. */
  function SetTypedField(p: PointValues, name: string, v: FieldValue): (r: PointValues)
    requires Valid(p)
    ensures Valid(r)
    ensures Lookup(r, name) == Some(v)
    ensures forall n :: n != name ==> Lookup(r, n) == Lookup(p, n)
    ensures r.tags == p.tags && r.name == p.name && r.time == p.time
  {
    p.(fields := SortedMap.Insert(p.fields, name, v))
  }

  /** `get_field_type`: the type of the stored variant. */
  function GetFieldType(p: PointValues, name: string): (r: Option<FieldType>)
    ensures r.Some? <==> name in SortedMap.KeySet(p.fields)
    ensures r.Some? ==> r.value == TypeOf(Lookup(p, name).value)
  {
    match Lookup(p, name)
    case Some(v) => Some(TypeOf(v))
    case None => None
  }

  /**
   * `get_field`: the expected type is accepted but ignored (its check is
   * commented out), so this never fails.
   */
  function GetField(p: PointValues, name: string, expectedType: Option<FieldType>)
    : (r: Result<Option<FieldValue>, FieldError>)
    ensures r == Success(Lookup(p, name))
  {
    match Lookup(p, name)
    case Some(v) => Success(Some(v))
    case None => Success(None)
  }

  /**
   * The five typed getters at type `t`: the payload when its variant is `t`, an
   * error for any other variant, `Ok(None)` for an absent field.
   */
  function GetTypedField(p: PointValues, name: string, t: FieldType): (r: Result<Option<FieldValue>, FieldError>)
    ensures r == Success(None) <==> GetFieldType(p, name).None?
    ensures r.Success? && r.value.Some? <==> GetFieldType(p, name) == Some(t)
    ensures r.Failure? <==> GetFieldType(p, name).Some? && GetFieldType(p, name) != Some(t)
    ensures r.Success? && r.value.Some? ==> Lookup(p, name) == r.value && TypeOf(r.value.value) == t
  {
    match GetField(p, name, Some(t))
    case Failure(e) => Failure(e)
    case Success(None) => Success(None)
    case Success(Some(v)) => if TypeOf(v) == t then Success(Some(v)) else Failure(NotA(t))
  }

  /** `set_field`: a mismatching declared type is an error and changes nothing. */
  function SetField(p: PointValues, name: string, v: FieldValue, fieldType: Option<FieldType>)
    : (r: Result<PointValues, FieldError>)
    requires Valid(p)
    ensures r.Success? <==> fieldType.None? || fieldType.value == TypeOf(v)
    ensures r.Success? ==> Valid(r.value) && Lookup(r.value, name) == Some(v)
    ensures r.Success? ==> forall n :: n != name ==> Lookup(r.value, n) == Lookup(p, n)
    ensures r.Success? ==> r.value.tags == p.tags && r.value.name == p.name && r.value.time == p.time
  {
    match CheckType(v, fieldType)
    case Failure(e) => Failure(e)
    case Success(_) => Success(p.(fields := SortedMap.Insert(p.fields, name, v)))
  }

  /** `set_fields`: untyped `set_field` per pair; never fails, the last pair per name wins. */
  function SetFields(p: PointValues, values: seq<(string, FieldValue)>): (r: Result<PointValues, FieldError>)
    requires Valid(p)
    ensures r.Success?
    ensures Valid(r.value)
    ensures forall n :: Lookup(r.value, n) ==
              match SortedMap.Lookup(values, n)
              case Some(v) => Some(v)
              case None => Lookup(p, n)
    ensures r.value.tags == p.tags && r.value.name == p.name && r.value.time == p.time
    decreases |values|
  {
    if |values| == 0 then Success(p)
    else
      var init := values[..|values| - 1];
      var (name, v) := values[|values| - 1];
      match SetFields(p, init)
      case Failure(e) => Failure(e)
      case Success(q) => SetField(q, name, v, None)
  }

  /** `remove_field`: an error for an absent field, otherwise exactly that field goes. */
  function RemoveField(p: PointValues, name: string): (r: Result<PointValues, FieldError>)
    requires Valid(p)
    ensures r.Failure? <==> Lookup(p, name).None?
    ensures r.Failure? ==> r.error == NotFound(name)
    ensures r.Success? ==> Valid(r.value) && Lookup(r.value, name) == None
    ensures r.Success? ==> forall n :: n != name ==> Lookup(r.value, n) == Lookup(p, n)
    ensures r.Success? ==> r.value.tags == p.tags && r.value.name == p.name && r.value.time == p.time
  {
    if Lookup(p, name).None? then Failure(NotFound(name))
    else Success(p.(fields := SortedMap.Remove(p.fields, name)))
  }

  /** `get_field_names`: ascending, each name once. */
  function GetFieldNames(p: PointValues): (ns: seq<string>)
    requires Valid(p)
    ensures StrictlyAscending(ns)
    ensures forall n :: n in ns <==> GetFieldType(p, n).Some?
  {
    forall n ensures n in SortedMap.Keys(p.fields) <==> GetFieldType(p, n).Some? {
      SortedMap.KeysMembership(p.fields, n);
    }
    SortedMap.Keys(p.fields)
  }

  /** `has_fields`. */
  function HasFields(p: PointValues): (b: bool)
    ensures b <==> exists n :: GetFieldType(p, n).Some?
  {
    if |p.fields| > 0 then
      assert GetFieldType(p, p.fields[0].key).Some?;
      true
    else
      false
  }
}

/**
 * How the two `PointValues` snapshots relate. Forgetting the type tags of a
 * valid upper-case record gives a lower-case record, and every operation
 * commutes with that forgetting, except `get_field` with an expected type that
 * does not match, which only the upper-case snapshot rejects.
 */
module PointSnapshots {
  import opened Wrappers
  import opened Fields
  import SortedMap
  import T = TaggedPointValues
  import P = PlainPointValues

  /** Drops the type tags. */
  function Forget(p: T.PointValues): (q: P.PointValues)
    requires T.Valid(p)
    ensures P.Valid(q)
    ensures q.name == p.name && q.time == p.time && q.tags == p.tags
    ensures forall n :: P.Lookup(q, n) == if T.Lookup(p, n).Some? then Some(T.Lookup(p, n).value.value) else None
  {
    var q := P.PointValues(p.name, p.time, p.tags, SortedMap.MapValues(p.fields, (e: T.FieldEntry) => e.value));
    forall n ensures P.Lookup(q, n) == if T.Lookup(p, n).Some? then Some(T.Lookup(p, n).value.value) else None {
      SortedMap.MapValuesGet(p.fields, (e: T.FieldEntry) => e.value, n);
    }
    q
  }

  /** On a valid record the stored tag is the variant's type, so both report the same type. */
  lemma FieldTypeAgrees(p: T.PointValues, name: string)
    requires T.Valid(p)
    ensures T.GetFieldType(p, name) == P.GetFieldType(Forget(p), name)
  {
    T.LookupAgrees(p, name);
  }

  /** The typed getters agree: one rejects inside `get_field`, the other after it. */
  lemma TypedGettersAgree(p: T.PointValues, name: string, t: FieldType)
    requires T.Valid(p)
    ensures T.GetTypedField(p, name, t).Success? <==> P.GetTypedField(Forget(p), name, t).Success?
    ensures T.GetTypedField(p, name, t).Success? ==> T.GetTypedField(p, name, t) == P.GetTypedField(Forget(p), name, t)
  {
    FieldTypeAgrees(p, name);
  }

  /** `get_field` differs exactly when a present field is asked for under another type. */
  lemma GetFieldDiffers(p: T.PointValues, name: string, expected: Option<FieldType>)
    requires T.Valid(p)
    ensures T.GetField(p, name, expected) != P.GetField(Forget(p), name, expected) <==>
              T.GetFieldType(p, name).Some? && expected.Some? && expected != T.GetFieldType(p, name)
  {
    T.LookupAgrees(p, name);
  }

  /** `set_field` commutes with forgetting the tags, and fails on the same inputs. */
  lemma SetFieldCommutes(p: T.PointValues, name: string, v: FieldValue, fieldType: Option<FieldType>)
    requires T.Valid(p)
    ensures T.SetField(p, name, v, fieldType).Success? == P.SetField(Forget(p), name, v, fieldType).Success?
    ensures T.SetField(p, name, v, fieldType).Success? ==>
              Forget(T.SetField(p, name, v, fieldType).value) == P.SetField(Forget(p), name, v, fieldType).value
  {
    var tr, pr := T.SetField(p, name, v, fieldType), P.SetField(Forget(p), name, v, fieldType);
    if tr.Success? {
      var a, b := Forget(tr.value), pr.value;
      forall n ensures SortedMap.Get(a.fields, n) == SortedMap.Get(b.fields, n) {
        assert P.Lookup(a, n) == P.Lookup(b, n);
      }
      SortedMap.Canonical(a.fields, b.fields);
    }
  }

  /** `remove_field` commutes with forgetting the tags, and fails on the same inputs. */
  lemma RemoveFieldCommutes(p: T.PointValues, name: string)
    requires T.Valid(p)
    ensures T.RemoveField(p, name).Success? == P.RemoveField(Forget(p), name).Success?
    ensures T.RemoveField(p, name).Success? ==>
              Forget(T.RemoveField(p, name).value) == P.RemoveField(Forget(p), name).value
  {
    var tr, pr := T.RemoveField(p, name), P.RemoveField(Forget(p), name);
    if tr.Success? {
      var a, b := Forget(tr.value), pr.value;
      forall n ensures SortedMap.Get(a.fields, n) == SortedMap.Get(b.fields, n) {
        assert P.Lookup(a, n) == P.Lookup(b, n);
      }
      SortedMap.Canonical(a.fields, b.fields);
    }
  }
}
