/**
 * Pieces shared by both line-protocol encoders: comma-joined and comma-prefixed
 * segments, the timestamp text, the final `measurement tags fields time` layout
 * and the filter that decides which tags are written.
 */
module LineProtocol {
  import opened Wrappers
  import opened Numbers
  import opened Text
  import opened Options
  import SortedMap

  /** Each piece behind its own comma: the shape of a tags segment. */
  function Prefixed(pieces: seq<string>): string
    decreases |pieces|
  {
    if |pieces| == 0 then "" else "," + pieces[0] + Prefixed(pieces[1..])
  }

  /** A comma-prefixed segment is a comma followed by the comma-joined pieces. */
  lemma {:induction false} PrefixedIsJoin(pieces: seq<string>)
    ensures Prefixed(pieces) == if |pieces| == 0 then "" else "," + Join(pieces, ',')
    decreases |pieces|
  {
    if |pieces| > 1 {
      PrefixedIsJoin(pieces[1..]);
    }
  }

  lemma {:induction false} PrefixedAppend(a: seq<string>, b: seq<string>)
    ensures Prefixed(a + b) == Prefixed(a) + Prefixed(b)
    decreases |a|
  {
    if |a| > 0 {
      assert (a + b)[0] == a[0];
      assert (a + b)[1..] == a[1..] + b;
      PrefixedAppend(a[1..], b);
    } else {
      assert a + b == b;
    }
  }

  /**
   * The loop that builds `fields_line`: push a comma when the line is not empty,
   * then the piece. With non-empty pieces this is exactly `join(",")`.
   */
  method CommaJoin(pieces: seq<string>) returns (line: string)
    ensures line == [] <==> forall i :: 0 <= i < |pieces| ==> pieces[i] == []
    ensures (forall i :: 0 <= i < |pieces| ==> pieces[i] != []) ==> line == Join(pieces, ',')
  {
    line := "";
    var k := 0;
    while k < |pieces|
      invariant 0 <= k <= |pieces|
      invariant line == [] <==> forall i :: 0 <= i < k ==> pieces[i] == []
      invariant (forall i :: 0 <= i < k ==> pieces[i] != []) ==> line == Join(pieces[..k], ',')
    {
      if line != "" {
        line := line + ",";
      }
      if forall i :: 0 <= i < k + 1 ==> pieces[i] != [] {
        JoinSnoc(pieces[..k], pieces[k]);
        assert pieces[..k + 1] == pieces[..k] + [pieces[k]];
      }
      line := line + pieces[k];
      k := k + 1;
    }
    assert pieces[..|pieces|] == pieces;
  }

  lemma {:induction false} JoinSnoc(xs: seq<string>, x: string)
    ensures Join(xs + [x], ',') == if |xs| == 0 then x else Join(xs, ',') + "," + x
    decreases |xs|
  {
    if |xs| == 0 {
      assert xs + [x] == [x];
    } else if |xs| == 1 {
      assert xs + [x] == [xs[0], x];
      assert [xs[0], x][1..] == [x];
    } else {
      assert (xs + [x])[1..] == xs[1..] + [x];
      JoinSnoc(xs[1..], x);
    }
  }

  /**
   * The timestamp text: the point's own timestamp verbatim, otherwise the clock
   * read in the requested unit, or in the encoder's default unit when none is given.
   */
  function TimeText(timestamp: Option<U32>, precision: Option<TimeUnitV2>, defaultUnit: TimeUnitV2, nowNs: nat): (s: string)
    ensures |s| > 0 && AllDigits(s)
    ensures ParseNat(s) == Some(if timestamp.Some? then timestamp.value else NowIn(precision.GetOr(defaultUnit), nowNs))
  {
    var n: nat := if timestamp.Some? then timestamp.value else NowIn(precision.GetOr(defaultUnit), nowNs);
    NatToStringRoundTrip(n);
    NatToString(n)
  }

  /** The text after the last space. */
  function LastWord(s: string): string
    decreases |s|
  {
    if |s| == 0 || s[|s| - 1] == ' ' then [] else LastWord(s[..|s| - 1]) + [s[|s| - 1]]
  }

  lemma {:induction false} LastWordAfterSpace(a: string, b: string)
    requires ' ' !in b
    ensures LastWord(a + " " + b) == b
    decreases |b|
  {
    if |b| == 0 {
      assert a + " " + b == a + " ";
    } else {
      var s := a + " " + b;
      assert s[..|s| - 1] == a + " " + b[..|b| - 1];
      LastWordAfterSpace(a, b[..|b| - 1]);
      assert b == b[..|b| - 1] + [b[|b| - 1]];
    }
  }

  /** `format!("{}{} {} {}", measurement, tags, fields, time)`. */
  function Layout(measurement: string, tags: string, fields: string, time: string): (line: string)
    requires AllDigits(time)
    ensures measurement <= line
    ensures LastWord(line) == time
  {
    var line := measurement + tags + " " + fields + " " + time;
    LastWordAfterSpace(measurement + tags + " " + fields, time);
    line
  }

  /** A tag is written when its name is non-empty and not in `shadowed`. */
  predicate Keep(name: string, shadowed: set<string>) {
    name != "" && name !in shadowed
  }

  /** The entries of `m` that are written, in their order. */
  function Kept(m: seq<SortedMap.Entry<string>>, shadowed: set<string>): (r: seq<SortedMap.Entry<string>>)
    ensures forall e :: e in r <==> e in m && Keep(e.key, shadowed)
    ensures SortedMap.Valid(m) ==> SortedMap.Valid(r)
    decreases |m|
  {
    if |m| == 0 then []
    else
      var rest := Kept(m[1..], shadowed);
      assert forall e :: e in m <==> e == m[0] || e in m[1..];
      if Keep(m[0].key, shadowed) then
        assert SortedMap.Valid(m) ==> forall j :: 0 <= j < |rest| ==> Less(m[0].key, rest[j].key) by {
          if SortedMap.Valid(m) {
            forall j | 0 <= j < |rest| ensures Less(m[0].key, rest[j].key) {
              assert rest[j] in m[1..];
              var i :| 0 <= i < |m[1..]| && m[1..][i] == rest[j];
              assert m[i + 1] == rest[j];
            }
          }
        }
        [m[0]] + rest
      else
        rest
  }

  /** Nothing is dropped from a list whose names are all written. */
  lemma {:induction false} KeptAll(m: seq<SortedMap.Entry<string>>, shadowed: set<string>)
    requires forall i :: 0 <= i < |m| ==> Keep(m[i].key, shadowed)
    ensures Kept(m, shadowed) == m
    decreases |m|
  {
    if |m| > 0 {
      KeptAll(m[1..], shadowed);
      assert m == [m[0]] + m[1..];
    }
  }
}

/**
 * `Point` of `src/Point/mod.rs` and its line-protocol encoder. Field names and
 * tag names go through the tag escaper, the measurement through the measurement
 * escaper; tag values and the text of string fields are written as they are
 * (string fields only through the quoted-string escaper, without quotes).
 */
module TaggedLineProtocol {
  import opened Wrappers
  import opened Numbers
  import opened Text
  import opened Options
  import opened Fields
  import opened Escaper
  import opened LineProtocol
  import SortedMap
  import T = TaggedPointValues

  /** `Point`: a wrapper around one `PointValues`. */
  datatype Point = Point(values: T.PointValues)

  predicate Valid(pt: Point) {
    T.Valid(pt.values)
  }

  /** `set_measurement`: an empty name is ignored; nothing else changes. */
  function SetMeasurement(pt: Point, measurement: string): (r: Point)
    ensures r.values.name == if measurement == "" then pt.values.name else Some(measurement)
    ensures r.values.tags == pt.values.tags && r.values.fields == pt.values.fields && r.values.time == pt.values.time
  {
    if measurement != "" then Point(pt.values.(name := Some(measurement))) else pt
  }

  /**
   * `field_to_line_protocol_string`. A float's text comes from `floatText`,
   * standing for Rust's `f64::to_string`.
   */
  function FieldText(v: FieldValue, floatText: Binary64 -> string): string {
    match v
    case IntegerValue(i) => IntToString(i) + "i"
    case FloatValue(f) => floatText(f)
    case BooleanValue(b) => if b then "T" else "F"
    case StringValue(s) => EscapeQuoted(s)
    case UIntegerValue(u) => NatToString(u) + "u"
  }

  /** Reads a field's text back, knowing the field's type (floats are not read). */
  function ParseFieldText(t: FieldType, s: string): Option<FieldValue> {
    match t
    case IntegerType =>
      if |s| > 0 && s[|s| - 1] == 'i' then
        match ParseInt(s[..|s| - 1])
        case Some(i) => if -0x8000_0000_0000_0000 <= i < 0x8000_0000_0000_0000 then Some(IntegerValue(i)) else None
        case None => None
      else None
    case UIntegerType =>
      if |s| > 0 && s[|s| - 1] == 'u' then
        match ParseNat(s[..|s| - 1])
        case Some(n) => if n < 0x1_0000_0000 then Some(UIntegerValue(n)) else None
        case None => None
      else None
    case BooleanType => if s == "T" then Some(BooleanValue(true)) else if s == "F" then Some(BooleanValue(false)) else None
    case StringType => Some(StringValue(UnescapeQuoted(s)))
    case FloatType => None
  }

  /** Every non-float field value is recovered from its text and its type. */
  lemma FieldTextRoundTrip(v: FieldValue, floatText: Binary64 -> string)
    requires TypeOf(v) != FloatType
    ensures ParseFieldText(TypeOf(v), FieldText(v, floatText)) == Some(v)
  {
    var s := FieldText(v, floatText);
    match v
    case IntegerValue(i) =>
      assert s[..|s| - 1] == IntToString(i);
      IntToStringRoundTrip(i);
    case UIntegerValue(u) =>
      assert s[..|s| - 1] == NatToString(u);
      NatToStringRoundTrip(u);
    case StringValue(x) =>
      QuotedRoundTrip(x);
    case BooleanValue(_) =>
  }

  /** One `name=value` piece of the fields segment. */
  function FieldPiece(e: SortedMap.Entry<T.FieldEntry>, floatText: Binary64 -> string): string {
    EscapeTag(e.key) + "=" + FieldText(e.value.value, floatText)
  }

  /** The field pieces, in the map's (ascending) order. */
  function FieldPieces(fields: seq<SortedMap.Entry<T.FieldEntry>>, floatText: Binary64 -> string): (ps: seq<string>)
    ensures |ps| == |fields|
    ensures forall i :: 0 <= i < |fields| ==> ps[i] == FieldPiece(fields[i], floatText) && ps[i] != []
  {
    seq(|fields|, i requires 0 <= i < |fields| => FieldPiece(fields[i], floatText))
  }

  /** `fields_line`, built by the loop of `to_line_protocol`. */
  method FieldsLine(p: T.PointValues, floatText: Binary64 -> string) returns (line: string)
    ensures line == Join(FieldPieces(p.fields, floatText), ',')
    ensures line == [] <==> !T.HasFields(p)
  {
    line := CommaJoin(FieldPieces(p.fields, floatText));
  }

  /**
   * The tags that are written, in order: default tags not shadowed by an
   * explicit tag, ascending; then the explicit tags, ascending. Empty names are
   * skipped in both.
   */
  function TagEntries(p: T.PointValues, defaultTags: Option<seq<(string, string)>>): seq<SortedMap.Entry<string>> {
    var defaults := if defaultTags.Some? then Kept(SortedMap.FromList(defaultTags.value), SortedMap.KeySet(p.tags)) else [];
    defaults + Kept(p.tags, {})
  }

  /** One `,name=value` tag piece without its comma. */
  function TagPiece(e: SortedMap.Entry<string>): string {
    EscapeTag(e.key) + "=" + e.value
  }

  function TagPieces(es: seq<SortedMap.Entry<string>>): (ps: seq<string>)
    ensures |ps| == |es| && forall i :: 0 <= i < |es| ==> ps[i] == TagPiece(es[i])
  {
    seq(|es|, i requires 0 <= i < |es| => TagPiece(es[i]))
  }

  /** `tags_line`: every written tag behind its own comma. */
  function TagsLine(p: T.PointValues, defaultTags: Option<seq<(string, string)>>): string {
    Prefixed(TagPieces(TagEntries(p, defaultTags)))
  }

  /**
   * `Point::to_line_protocol`: nothing without a measurement or without fields;
   * otherwise the line, stamped with the point's time or the clock (in
   * milliseconds unless a precision is given).
   */
  function ToLineProtocol(pt: Point, precision: Option<TimeUnitV2>, defaultTags: Option<seq<(string, string)>>,
                          nowNs: nat, floatText: Binary64 -> string): (r: Option<string>)
    requires Valid(pt)
    ensures r.Some? <==> pt.values.name.Some? && T.HasFields(pt.values)
    ensures r.Some? ==> EscapeMeasurement(pt.values.name.value) <= r.value
    ensures r.Some? ==> ParseNat(LastWord(r.value)) == Some(
              if pt.values.time.Some? then pt.values.time.value else NowIn(precision.GetOr(Millisecond), nowNs))
  {
    var p := pt.values;
    if p.name.None? then None
    else
      var fieldsLine := Join(FieldPieces(p.fields, floatText), ',');
      if !T.HasFields(p) then
        None
      else
        var time := TimeText(p.time, precision, Millisecond, nowNs);
        Some(Layout(EscapeMeasurement(p.name.value), TagsLine(p, defaultTags), fieldsLine, time))
  }

  /** `Point::to_string`: the line without precision or default tags, or "" when there is none. */
  function ToString(pt: Point, nowNs: nat, floatText: Binary64 -> string): (s: string)
    requires Valid(pt)
    ensures s == "" <==> pt.values.name.None? || !T.HasFields(pt.values)
    ensures s != "" ==> ToLineProtocol(pt, None, None, nowNs, floatText) == Some(s)
  {
    match ToLineProtocol(pt, None, None, nowNs, floatText)
    case Some(line) =>
      assert LastWord(line) != [];
      line
    case None => ""
  }

  // ---------------------------------------------------------------------------
  // What the tags segment contains
  // ---------------------------------------------------------------------------

  /**
   * A tag is written with value `v` exactly when its name is non-empty and either
   * the point has it with value `v`, or the point lacks it and the default tags
   * give `v`. So a default tag never overrides an explicit one.
   */
  lemma TagEntriesContents(p: T.PointValues, defaultTags: Option<seq<(string, string)>>, name: string, v: string)
    requires T.Valid(p)
    ensures SortedMap.Entry(name, v) in TagEntries(p, defaultTags) <==>
              name != "" &&
              (T.GetTag(p, name) == Some(v) ||
               (T.GetTag(p, name) == None && defaultTags.Some? && SortedMap.Lookup(defaultTags.value, name) == Some(v)))
  {
    var e := SortedMap.Entry(name, v);
    SortedMap.InIffGet(p.tags, e);
    if defaultTags.Some? {
      SortedMap.InIffGet(SortedMap.FromList(defaultTags.value), e);
    }
  }

  /** No tag name is written twice, and each half of the segment is ascending. */
  lemma TagNamesDistinct(p: T.PointValues, defaultTags: Option<seq<(string, string)>>)
    requires T.Valid(p)
    ensures forall i, j :: 0 <= i < j < |TagEntries(p, defaultTags)| ==>
              TagEntries(p, defaultTags)[i].key != TagEntries(p, defaultTags)[j].key
  {
    var explicit := Kept(p.tags, {});
    var defaults := if defaultTags.Some? then Kept(SortedMap.FromList(defaultTags.value), SortedMap.KeySet(p.tags)) else [];
    assert TagEntries(p, defaultTags) == defaults + explicit;
    forall e | e in explicit ensures e.key in SortedMap.KeySet(p.tags) {
      ExplicitKeyIn(p.tags, e);
    }
    DisjointHalvesDistinct(defaults, explicit, SortedMap.KeySet(p.tags));
  }

  /**
   * Two ascending lists, the first avoiding a set of names and the second drawn
   * from it, have no name in common: their concatenation repeats no name.
   */
  lemma DisjointHalvesDistinct(defaults: seq<SortedMap.Entry<string>>, explicit: seq<SortedMap.Entry<string>>, names: set<string>)
    requires SortedMap.Valid(defaults) && SortedMap.Valid(explicit)
    requires forall e :: e in defaults ==> e.key !in names
    requires forall e :: e in explicit ==> e.key in names
    ensures forall i, j :: 0 <= i < j < |defaults + explicit| ==> (defaults + explicit)[i].key != (defaults + explicit)[j].key
  {
    var es := defaults + explicit;
    forall i, j | 0 <= i < j < |es| ensures es[i].key != es[j].key {
      if j < |defaults| {
        ValidDistinct(defaults, i, j);
      } else if i >= |defaults| {
        ValidDistinct(explicit, i - |defaults|, j - |defaults|);
      } else {
        assert es[i] == defaults[i];
        assert es[j] == explicit[j - |defaults|];
      }
    }
  }

  lemma ValidDistinct(m: seq<SortedMap.Entry<string>>, i: nat, j: nat)
    requires SortedMap.Valid(m) && i < j < |m|
    ensures m[i].key != m[j].key
  {
    LessIrreflexive(m[i].key);
  }

  lemma ExplicitKeyIn(m: seq<SortedMap.Entry<string>>, e: SortedMap.Entry<string>)
    requires e in m
    ensures e.key in SortedMap.KeySet(m)
  {
    var k :| 0 <= k < |m| && m[k] == e;
    SortedMap.KeySetIndex(m, e.key);
  }

  /**
   * Default tags are a map: whatever order they are iterated in, the line is the
   * same, because they are sorted before they are written.
   */
  lemma DefaultTagsOrderIndependent(pt: Point, precision: Option<TimeUnitV2>, a: seq<(string, string)>,
                                    b: seq<(string, string)>, nowNs: nat, floatText: Binary64 -> string)
    requires Valid(pt)
    requires forall n :: SortedMap.Lookup(a, n) == SortedMap.Lookup(b, n)
    ensures ToLineProtocol(pt, precision, Some(a), nowNs, floatText) == ToLineProtocol(pt, precision, Some(b), nowNs, floatText)
  {
    SortedMap.Canonical(SortedMap.FromList(a), SortedMap.FromList(b));
  }

  /** The tags segment is a comma followed by the comma-joined pieces, or nothing. */
  lemma TagsLineShape(p: T.PointValues, defaultTags: Option<seq<(string, string)>>)
    ensures TagsLine(p, defaultTags) == if |TagEntries(p, defaultTags)| == 0 then "" else "," + Join(TagPieces(TagEntries(p, defaultTags)), ',')
  {
    PrefixedIsJoin(TagPieces(TagEntries(p, defaultTags)));
  }

  // ---------------------------------------------------------------------------
  // Worked examples
  // ---------------------------------------------------------------------------

  /** Integer, unsigned and boolean fields: `51i`, `51u`, `F`. */
  lemma FieldTextExamples(floatText: Binary64 -> string)
    ensures FieldText(IntegerValue(51), floatText) == "51i"
    ensures FieldText(UIntegerValue(51), floatText) == "51u"
    ensures FieldText(BooleanValue(false), floatText) == "F"
    ensures FieldText(IntegerValue(-7), floatText) == "-7i"
  {
  }

  /** Tags set as `z=1` then `a=2` are written as `,a=2,z=1`. */
  lemma TagOrderExample(m: string)
    ensures TagsLine(T.SetTag(T.SetTag(T.New(m), "z", "1"), "a", "2"), None) == ",a=2,z=1"
  {
    var p := T.SetTag(T.SetTag(T.New(m), "z", "1"), "a", "2");
    assert p.tags == [SortedMap.Entry("a", "2"), SortedMap.Entry("z", "1")];
    TagOrderLine(p);
  }

  lemma PlainTagPiece(k: string, v: string)
    requires forall i :: 0 <= i < |k| ==> 'a' <= k[i] <= 'z'
    ensures TagPiece(SortedMap.Entry(k, v)) == k + "=" + v
  {
    LettersUnmapped(k);
    EscapeNothingMapped(TagMap(), k);
  }

  lemma TagOrderLine(p: T.PointValues)
    requires p.tags == [SortedMap.Entry("a", "2"), SortedMap.Entry("z", "1")]
    ensures TagsLine(p, None) == ",a=2,z=1"
  {
    var a, z := SortedMap.Entry("a", "2"), SortedMap.Entry("z", "1");
    KeptAll([a, z], {});
    assert TagEntries(p, None) == [a, z];
    TagOrderPieces();
  }

  lemma TagOrderPieces()
    ensures Prefixed(TagPieces([SortedMap.Entry("a", "2"), SortedMap.Entry("z", "1")])) == ",a=2,z=1"
  {
    PlainTagPiece("a", "2");
    PlainTagPiece("z", "1");
    var es := [SortedMap.Entry("a", "2"), SortedMap.Entry("z", "1")];
    var pieces := TagPieces(es);
    assert pieces[0] == TagPiece(es[0]) == "a=2";
    assert pieces[1] == TagPiece(es[1]) == "z=1";
    assert pieces[1..] == ["z=1"];
    assert Prefixed(pieces) == ",a=2" + Prefixed(["z=1"]);
  }

  /** An explicit `host=serverA` wins over a default `host=default`. */
  lemma DefaultTagShadowedExample(m: string)
    ensures TagsLine(T.SetTag(T.New(m), "host", "serverA"), Some([("host", "default")])) == ",host=serverA"
  {
    var p := T.SetTag(T.New(m), "host", "serverA");
    assert p.tags == [SortedMap.Entry("host", "serverA")];
    ShadowedLine(p);
  }

  lemma ShadowedLine(p: T.PointValues)
    requires p.tags == [SortedMap.Entry("host", "serverA")]
    ensures TagsLine(p, Some([("host", "default")])) == ",host=serverA"
  {
    var h := SortedMap.Entry("host", "serverA");
    var d := SortedMap.Entry("host", "default");
    assert "host" in SortedMap.KeySet(p.tags) by {
      SortedMap.KeySetIndex(p.tags, "host");
    }
    assert SortedMap.FromList([("host", "default")]) == [d];
    assert Kept([d], SortedMap.KeySet(p.tags)) == [];
    KeptAll([h], {});
    assert TagEntries(p, Some([("host", "default")])) == [h];
    ShadowedPieces();
  }

  lemma ShadowedPieces()
    ensures Prefixed(TagPieces([SortedMap.Entry("host", "serverA")])) == ",host=serverA"
  {
    PlainTagPiece("host", "serverA");
    var es := [SortedMap.Entry("host", "serverA")];
    var pieces := TagPieces(es);
    assert pieces[0] == TagPiece(es[0]) == "host=serverA";
    assert pieces[1..] == [];
    assert Prefixed(pieces) == "," + pieces[0] + Prefixed([]);
  }

  lemma WithSpaceEscaped()
    ensures EscapeMeasurement("with space") == "with\\ space"
  {
    var m := MeasurementMap();
    assert forall i :: 0 <= i < |"with"| ==> "with"[i] !in m;
    assert forall i :: 0 <= i < |"space"| ==> "space"[i] !in m;
    EscapeOneMapped(m, "with", ' ', "space");
    assert "with" + [' '] + "space" == "with space";
    assert "with" + m[' '] + "space" == "with\\ space";
  }

  /** The point of the next example: one boolean field, nothing else. */
  lemma WithSpacePoint()
    ensures var p := T.SetTypedField(T.New("with space"), "dummy", BooleanValue(true));
            && p.fields == [SortedMap.Entry("dummy", T.FieldEntry(BooleanType, BooleanValue(true)))]
            && p.tags == [] && p.time == None && p.name == Some("with space")
            && T.HasFields(p)
  {
    var p := T.SetTypedField(T.New("with space"), "dummy", BooleanValue(true));
    assert T.GetFieldType(p, "dummy").Some?;
  }

  lemma DummyFieldsLine(floatText: Binary64 -> string)
    ensures Join(FieldPieces([SortedMap.Entry("dummy", T.FieldEntry(BooleanType, BooleanValue(true)))], floatText), ',') == "dummy=T"
  {
    var d := SortedMap.Entry("dummy", T.FieldEntry(BooleanType, BooleanValue(true)));
    assert FieldPiece(d, floatText) == "dummy=T" by {
      DummyName();
    }
    assert FieldPieces([d], floatText) == ["dummy=T"];
  }

  lemma DummyName()
    ensures EscapeTag("dummy") == "dummy"
  {
    EscapeNothingMapped(TagMap(), "dummy");
  }

  /**
   * `with space` with the single field `dummy=true`, no timestamp and second
   * precision: `with\\ space dummy=T <seconds>`, with a single space after the
   * measurement.
   */
  lemma WithSpaceExample(nowNs: nat, floatText: Binary64 -> string)
    ensures ToLineProtocol(Point(T.SetTypedField(T.New("with space"), "dummy", BooleanValue(true))), Some(Second), None, nowNs, floatText)
            == Some("with\\ space dummy=T " + NatToString(nowNs / 1_000_000_000))
  {
    WithSpacePoint();
    WithSpaceLine(T.SetTypedField(T.New("with space"), "dummy", BooleanValue(true)), nowNs, floatText);
  }

  lemma WithSpaceLine(p: T.PointValues, nowNs: nat, floatText: Binary64 -> string)
    requires T.Valid(p)
    requires p.fields == [SortedMap.Entry("dummy", T.FieldEntry(BooleanType, BooleanValue(true)))]
    requires p.tags == [] && p.time == None && p.name == Some("with space")
    ensures ToLineProtocol(Point(p), Some(Second), None, nowNs, floatText)
            == Some("with\\ space dummy=T " + NatToString(nowNs / 1_000_000_000))
  {
    assert T.HasFields(p) by {
      assert T.GetFieldType(p, "dummy").Some?;
    }
    DummyFieldsLine(floatText);
    assert TagsLine(p, None) == "" by {
      assert TagEntries(p, None) == [];
    }
    WithSpaceEscaped();
    var time := NatToString(nowNs / 1_000_000_000);
    assert TimeText(None, Some(Second), Millisecond, nowNs) == time;
    WithSpaceLayout(time);
  }

  lemma WithSpaceLayout(time: string)
    requires AllDigits(time)
    ensures Layout("with\\ space", "", "dummy=T", time) == "with\\ space dummy=T " + time
  {
    var head: string := "with\\ space" + "" + " " + "dummy=T" + " ";
    assert head == "with\\ space dummy=T ";
  }
}
