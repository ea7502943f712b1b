/**
 * `Point` of `src/point/mod.rs` and its line-protocol encoder. It differs from
 * the other snapshot in three ways: default tags are written in the order the
 * caller's map yields them, with both name and value escaped; the clock is read
 * in nanoseconds when no precision is given; and the escaping functions and the
 * field `Display` come from modules that are not part of this model, so they
 * are parameters here (`Renderers`).
 */
module PlainLineProtocol {
  import opened Wrappers
  import opened Numbers
  import opened Text
  import opened Options
  import opened Fields
  import opened LineProtocol
  import SortedMap
  import P = PlainPointValues

  /** `Point`: a wrapper around one `PointValues`. */
  datatype Point = Point(values: P.PointValues)

  predicate Valid(pt: Point) {
    P.Valid(pt.values)
  }

  /**
   * The text functions the encoder calls: `escape(_, COMMA_EQ_SPACE)` for names
   * and default-tag values, `escape(_, COMMA_SPACE)` for the measurement, and
   * `Display for PointFieldValue` for field values.
   */
  datatype Renderers = Renderers(
    commaEqSpace: string -> string,
    commaSpace: string -> string,
    display: FieldValue -> string)

  /** `set_measurement`: an empty name is ignored; nothing else changes. */
  function SetMeasurement(pt: Point, measurement: string): (r: Point)
    ensures r.values.name == if measurement == "" then pt.values.name else Some(measurement)
    ensures r.values.tags == pt.values.tags && r.values.fields == pt.values.fields && r.values.time == pt.values.time
  {
    if measurement != "" then Point(pt.values.(name := Some(measurement))) else pt
  }

  // ---------------------------------------------------------------------------
  // Fields segment
  // ---------------------------------------------------------------------------

  /** One `name=value` piece of the fields segment. */
  function FieldPiece(e: SortedMap.Entry<FieldValue>, r: Renderers): string {
    r.commaEqSpace(e.key) + "=" + r.display(e.value)
  }

  /** The field pieces, in the map's (ascending) order. */
  function FieldPieces(fields: seq<SortedMap.Entry<FieldValue>>, r: Renderers): (ps: seq<string>)
    ensures |ps| == |fields|
    ensures forall i :: 0 <= i < |fields| ==> ps[i] == FieldPiece(fields[i], r) && ps[i] != []
  {
    seq(|fields|, i requires 0 <= i < |fields| => FieldPiece(fields[i], r))
  }

  /** `fields_line`, built by the loop of `to_line_protocol`. */
  method FieldsLine(p: P.PointValues, r: Renderers) returns (line: string)
    ensures line == Join(FieldPieces(p.fields, r), ',')
    ensures line == [] <==> !P.HasFields(p)
  {
    line := CommaJoin(FieldPieces(p.fields, r));
    assert P.HasFields(p) <==> |p.fields| > 0;
  }

  // ---------------------------------------------------------------------------
  // Tags segment
  // ---------------------------------------------------------------------------

  /**
   * The default tags that are written, in the caller's iteration order: those
   * whose name is non-empty and not an explicit tag name.
   */
  function DefaultEntries(defaults: seq<(string, string)>, shadowed: set<string>): (r: seq<(string, string)>)
    ensures forall t :: t in r <==> t in defaults && Keep(t.0, shadowed)
    ensures |r| <= |defaults|
    decreases |defaults|
  {
    if |defaults| == 0 then []
    else
      var rest := DefaultEntries(defaults[1..], shadowed);
      assert forall t :: t in defaults <==> t == defaults[0] || t in defaults[1..];
      if Keep(defaults[0].0, shadowed) then [defaults[0]] + rest else rest
  }

  /** A default tag's piece: name and value both escaped. */
  function DefaultPiece(t: (string, string), r: Renderers): string {
    r.commaEqSpace(t.0) + "=" + r.commaEqSpace(t.1)
  }

  /** An explicit tag's piece: only the name escaped. */
  function TagPiece(e: SortedMap.Entry<string>, r: Renderers): string {
    r.commaEqSpace(e.key) + "=" + e.value
  }

  function DefaultPieces(ts: seq<(string, string)>, r: Renderers): (ps: seq<string>)
    ensures |ps| == |ts| && forall i :: 0 <= i < |ts| ==> ps[i] == DefaultPiece(ts[i], r)
  {
    seq(|ts|, i requires 0 <= i < |ts| => DefaultPiece(ts[i], r))
  }

  function TagPieces(es: seq<SortedMap.Entry<string>>, r: Renderers): (ps: seq<string>)
    ensures |ps| == |es| && forall i :: 0 <= i < |es| ==> ps[i] == TagPiece(es[i], r)
  {
    seq(|es|, i requires 0 <= i < |es| => TagPiece(es[i], r))
  }

  /** `tags_line`: the surviving default tags, then the explicit tags, each behind a comma. */
  function TagsLine(p: P.PointValues, defaultTags: Option<seq<(string, string)>>, r: Renderers): string {
    var defaults := if defaultTags.Some? then DefaultEntries(defaultTags.value, SortedMap.KeySet(p.tags)) else [];
    Prefixed(DefaultPieces(defaults, r) + TagPieces(Kept(p.tags, {}), r))
  }

  // ---------------------------------------------------------------------------
  // The encoder
  // ---------------------------------------------------------------------------

  /**
   * `Point::to_line_protocol`: nothing without a measurement or without fields;
   * otherwise the line, stamped with the point's time or the clock (in
   * nanoseconds unless a precision is given).
   */
  function ToLineProtocol(pt: Point, precision: Option<TimeUnitV2>, defaultTags: Option<seq<(string, string)>>,
                          nowNs: nat, r: Renderers): (line: Option<string>)
    requires Valid(pt)
    ensures line.Some? <==> pt.values.name.Some? && P.HasFields(pt.values)
    ensures line.Some? ==> r.commaSpace(pt.values.name.value) <= line.value
    ensures line.Some? ==> ParseNat(LastWord(line.value)) == Some(
              if pt.values.time.Some? then pt.values.time.value else NowIn(precision.GetOr(Nanosecond), nowNs))
  {
    var p := pt.values;
    if p.name.None? then None
    else
      var fieldsLine := Join(FieldPieces(p.fields, r), ',');
      assert fieldsLine == [] <==> !P.HasFields(p) by {
        assert P.HasFields(p) <==> |p.fields| > 0;
        if |p.fields| > 0 {
          assert FieldPieces(p.fields, r)[0] != [];
        }
      }
      if fieldsLine == [] then
        None
      else
        var time := TimeText(p.time, precision, Nanosecond, nowNs);
        Some(Layout(r.commaSpace(p.name.value), TagsLine(p, defaultTags, r), fieldsLine, time))
  }

  /** `Display for Point`: the line without precision or default tags, or "" when there is none. */
  function Display(pt: Point, nowNs: nat, r: Renderers): (s: string)
    requires Valid(pt)
    ensures s == "" <==> pt.values.name.None? || !P.HasFields(pt.values)
    ensures s != "" ==> ToLineProtocol(pt, None, None, nowNs, r) == Some(s)
  {
    match ToLineProtocol(pt, None, None, nowNs, r)
    case Some(line) =>
      assert LastWord(line) != [];
      line
    case None => ""
  }

  // ---------------------------------------------------------------------------
  // What the tags segment contains
  // ---------------------------------------------------------------------------

  /** The number of copies of `t` that survive the default-tag filter. */
  lemma {:induction false} DefaultEntriesCount(defaults: seq<(string, string)>, shadowed: set<string>, t: (string, string))
    ensures multiset(DefaultEntries(defaults, shadowed))[t] == if Keep(t.0, shadowed) then multiset(defaults)[t] else 0
    decreases |defaults|
  {
    if |defaults| > 0 {
      DefaultEntriesCount(defaults[1..], shadowed, t);
      assert defaults == [defaults[0]] + defaults[1..];
      assert multiset(defaults) == multiset{defaults[0]} + multiset(defaults[1..]);
    }
  }

  /**
   * The default tags come from a hash map, whose iteration order is not fixed.
   * Whatever that order, the same default tags are written, each as often: the
   * written lists are permutations of each other.
   */
  lemma DefaultEntriesPermutation(a: seq<(string, string)>, b: seq<(string, string)>, shadowed: set<string>)
    requires multiset(a) == multiset(b)
    ensures multiset(DefaultEntries(a, shadowed)) == multiset(DefaultEntries(b, shadowed))
  {
    forall t ensures multiset(DefaultEntries(a, shadowed))[t] == multiset(DefaultEntries(b, shadowed))[t] {
      DefaultEntriesCount(a, shadowed, t);
      DefaultEntriesCount(b, shadowed, t);
    }
  }

  /**
   * Which default tags are written, in terms of the point: a pair of the map is
   * written exactly when its name is non-empty and the point has no tag of that
   * name, whatever its value there.
   */
  lemma DefaultTagWritten(p: P.PointValues, defaults: seq<(string, string)>, name: string, v: string)
    requires P.Valid(p)
    ensures (name, v) in DefaultEntries(defaults, SortedMap.KeySet(p.tags)) <==>
              (name, v) in defaults && name != "" && P.GetTag(p, name).None?
  {
  }

  /** An explicit tag is written with its value exactly when its name is non-empty. */
  lemma ExplicitTagWritten(p: P.PointValues, name: string, v: string)
    requires P.Valid(p)
    ensures SortedMap.Entry(name, v) in Kept(p.tags, {}) <==> name != "" && P.GetTag(p, name) == Some(v)
  {
    SortedMap.InIffGet(p.tags, SortedMap.Entry(name, v));
  }

  /** A default tag never shares its name with an explicit tag, so no name is written by both. */
  lemma DefaultsDisjointFromExplicit(p: P.PointValues, defaults: seq<(string, string)>)
    requires P.Valid(p)
    ensures forall t, e :: t in DefaultEntries(defaults, SortedMap.KeySet(p.tags)) && e in Kept(p.tags, {}) ==> t.0 != e.key
  {
    forall t, e | t in DefaultEntries(defaults, SortedMap.KeySet(p.tags)) && e in Kept(p.tags, {})
      ensures t.0 != e.key
    {
      var k :| 0 <= k < |p.tags| && p.tags[k] == e;
      SortedMap.KeySetIndex(p.tags, e.key);
    }
  }

  /** The tags segment is a comma followed by the comma-joined pieces, or nothing. */
  lemma TagsLineShape(p: P.PointValues, defaultTags: Option<seq<(string, string)>>, r: Renderers)
    ensures var defaults := if defaultTags.Some? then DefaultEntries(defaultTags.value, SortedMap.KeySet(p.tags)) else [];
            var pieces := DefaultPieces(defaults, r) + TagPieces(Kept(p.tags, {}), r);
            TagsLine(p, defaultTags, r) == if |pieces| == 0 then "" else "," + Join(pieces, ',')
  {
    var defaults := if defaultTags.Some? then DefaultEntries(defaultTags.value, SortedMap.KeySet(p.tags)) else [];
    PrefixedIsJoin(DefaultPieces(defaults, r) + TagPieces(Kept(p.tags, {}), r));
  }
}

/**
 * How the two encoders relate. Given the upper-case snapshot's escapers and
 * field text as renderers, an explicit precision and no default tags, both
 * write the same line for the same point; they part ways on the clock's default
 * unit and on how default tags are written.
 */
module EncoderSnapshots {
  import opened Wrappers
  import opened Numbers
  import opened Text
  import opened Options
  import opened Fields
  import opened Escaper
  import opened LineProtocol
  import SortedMap
  import T = TaggedPointValues
  import PointSnapshots
  import TL = TaggedLineProtocol
  import PL = PlainLineProtocol

  /** The upper-case snapshot's text functions, as renderers for the lower-case encoder. */
  function TaggedRenderers(floatText: Binary64 -> string): PL.Renderers {
    PL.Renderers(EscapeTag, EscapeMeasurement, (v: FieldValue) => TL.FieldText(v, floatText))
  }

  lemma SameFieldPieces(p: T.PointValues, floatText: Binary64 -> string)
    requires T.Valid(p)
    ensures PL.FieldPieces(PointSnapshots.Forget(p).fields, TaggedRenderers(floatText)) == TL.FieldPieces(p.fields, floatText)
  {
  }

  lemma SameTagsLine(p: T.PointValues, floatText: Binary64 -> string)
    requires T.Valid(p)
    ensures PL.TagsLine(PointSnapshots.Forget(p), None, TaggedRenderers(floatText)) == TL.TagsLine(p, None)
  {
    var explicit := Kept(p.tags, {});
    assert PL.DefaultPieces([], TaggedRenderers(floatText)) + PL.TagPieces(explicit, TaggedRenderers(floatText))
           == TL.TagPieces(explicit);
    assert TL.TagEntries(p, None) == explicit;
  }

  /**
   * Without default tags and with a precision given, the lower-case encoder fed
   * the upper-case escapers writes exactly the upper-case line.
   */
  lemma SameLineWithoutDefaults(p: T.PointValues, u: TimeUnitV2, nowNs: nat, floatText: Binary64 -> string)
    requires T.Valid(p)
    ensures PL.ToLineProtocol(PL.Point(PointSnapshots.Forget(p)), Some(u), None, nowNs, TaggedRenderers(floatText))
            == TL.ToLineProtocol(TL.Point(p), Some(u), None, nowNs, floatText)
  {
    var q := PointSnapshots.Forget(p);
    SameFieldPieces(p, floatText);
    SameTagsLine(p, floatText);
    assert PL.P.HasFields(q) <==> T.HasFields(p) by {
      assert PL.P.HasFields(q) <==> |q.fields| > 0;
      assert T.HasFields(p) <==> |p.fields| > 0 by {
        if |p.fields| > 0 {
          assert T.GetFieldType(p, p.fields[0].key).Some?;
        }
      }
    }
  }

  /**
   * Without a timestamp or a precision, the lower-case encoder reads the clock
   * in nanoseconds and the upper-case one in milliseconds.
   */
  lemma DefaultUnitsDiffer(p: T.PointValues, nowNs: nat, floatText: Binary64 -> string)
    requires T.Valid(p) && p.name.Some? && T.HasFields(p) && p.time.None?
    ensures var line := PL.ToLineProtocol(PL.Point(PointSnapshots.Forget(p)), None, None, nowNs, TaggedRenderers(floatText));
            line.Some? && ParseNat(LastWord(line.value)) == Some(nowNs)
    ensures var line := TL.ToLineProtocol(TL.Point(p), None, None, nowNs, floatText);
            line.Some? && ParseNat(LastWord(line.value)) == Some(nowNs / 1_000_000)
  {
    SameFieldPieces(p, floatText);
  }
}
