# influxdb3-napi core, modelled in Dafny

This project models the pure core of the `influxdb3-napi` Rust crate, a Node.js client for InfluxDB 3. The modelled parts are:

- **Line-protocol side:**
  - the character escaper (`src/point/escape.rs`);
  - the two snapshots of the typed point record (`src/Point/point_values.rs`, `src/point/point_values.rs`);
  - the two line-protocol encoders that render a point as `measurement[,tags] fields time` (`src/Point/mod.rs`, `src/point/mod.rs`).
- **Query side:**
  - the per-column converter that turns an Arrow record batch into one `Value` per cell, and the transposition into one map per row (`src/serializer/library_serializer.rs`);
  - the per-row batch serializer with its chunked fan-out to workers (`src/query/by_batch.rs`);
  - the loop that publishes serialized items to the result stream (`src/query/common/query_processor.rs`);
  - how a `Value` reaches the JavaScript host (`src/lib.rs`).
- **Rule tables:**
  - option names and defaults, and the query payload's keys (`src/client/options.rs`);
  - serializer choice, stream dispatch and write-status classification of both clients (`src/client/napi_rs/client.rs`, `src/client/native/client.rs`);
  - the bounded-counter async iterator (`src/query/query_processor.rs`).

Everything is an immutable datatype with pure functions. A few loops are kept as methods with invariants: the escaper's scan, the fields-line builder, the transposition and the worker fan-out/fan-in. The representation choices:

- A Rust `BTreeMap<String, _>` is a strictly ascending association list (`SortedMap`).
- A `HashMap` argument is a list of pairs in an arbitrary iteration order.
- Floats are opaque bit patterns.
- The wall clock is a parameter `nowNs` (nanoseconds since the epoch).
- The channel receiver is an oracle `accepts(k)` that says whether the `k`-th send succeeds.
- A mutating Rust method returns the new state. A method that can fail returns `Result`, and its `Failure` means "error reported, record untouched".

Files:

- **Shared:**
  - `wrappers.dfy`: `Option`, `Result`, integer widths.
  - `text.dfy`: string order, decimal rendering, join/split.
  - `sorted_map.dfy`: the `BTreeMap` model.
  - `fields.dfy`: field types and payloads.
- **Line-protocol side:**
  - `escape.dfy`: the escaper.
  - `tagged_point_values.dfy`, `plain_point_values.dfy`: the two point-record snapshots and how they relate.
  - `line_protocol.dfy`: the shared encoder pieces and the `src/Point` encoder.
  - `plain_line_protocol.dfy`: the `src/point` encoder and how the two encoders relate.
- **Query side:**
  - `values.dfy`: `Value` and host rendering.
  - `columns.dfy`: Arrow column types and payloads.
  - `library_serializer.dfy`: column conversion and transposition.
  - `by_batch.dfy`: the per-row serializer and the chunk split.
  - `stream.dfy`: the publish loop.
- **Rule tables:**
  - `options.dfy`: option tables.
  - `client.dfy`: both clients.
  - `async_iterator.dfy`: the iterator.

## Model

| member | source | states |
|---|---|---|
| `Escaper.Zip` | src/point/escape.rs:8-12 | characters and replacements are paired by position; the shorter side fixes the length, so surplus entries on either side are dropped |
| `Escaper.CollectContents` | src/point/escape.rs:8-15 | the table `Escaper::new` builds maps exactly the paired characters, each to the replacement of its last pair |
| `Escaper.CollectSnoc` | src/point/escape.rs:9-12 | collecting one more pair overwrites any earlier replacement for that character and changes nothing else |
| `Escaper.EscapeLoop` | src/point/escape.rs:17-35 | the scan that copies the unmapped run since `last_end` and then the replacement, and returns the input untouched when nothing was replaced, yields each character's replacement (or the character itself), concatenated in input order |
| `Escaper.EscapeLoopStep` | src/point/escape.rs:21-27 | one turn of the scan keeps "result so far plus the pending run = escape of the prefix read", for a mapped and for an unmapped character |
| `Escaper.EscapeSnoc` | src/point/escape.rs:21-26 | escaping a prefix one character longer appends exactly that character's replacement |
| `Escaper.EscapeAppend` | src/point/escape.rs:21-27 | escaping distributes over concatenation: `escape(a + b) == escape(a) + escape(b)` |
| `Escaper.EscapeNothingMapped` | src/point/escape.rs:29-30 | a string with no mapped character comes back unchanged |
| `Escaper.EscapeOneMapped` | src/point/escape.rs:22-33 | a single mapped character between unmapped runs is replaced, and the runs around it are kept verbatim |
| `Escaper.MeasurementPreset` | src/point/escape.rs:37-39 | `escape_measurement`'s table is exactly: comma, space, newline, carriage return and tab, each mapped to its backslash form |
| `Escaper.TagCollected` | src/point/escape.rs:46 | the six pairs of `escape_tag` collect into the tag table |
| `Escaper.TagPreset` | src/point/escape.rs:45-47 | `escape_tag`'s table is the measurement table plus `=` mapped to `\=` |
| `Escaper.QuotedPreset` | src/point/escape.rs:41-43 | `escape_quoted`'s table maps exactly `"` to `\"` and `\` to `\\` |
| `Escaper.LettersUnmapped` | src/point/escape.rs:37-47 | lower-case letters are escaped by neither the measurement nor the tag escaper |
| `Escaper.TestTagNames` | src/point/escape.rs:45-47 | the seven tag names of `test_lp_builder` (src/point/mod.rs:298-315) through `escape_tag`: space, comma and `=` get a backslash; the quotes stay; `with\ backslash` becomes `with\\ backslash`, its backslash kept |
| `Escaper.MeasurementReplace` | src/point/escape.rs:37-39 | the measurement escaper leaves every character outside comma, space, `\n`, `\r`, `\t` as it is, including `=` and `\` |
| `Escaper.TagReplace` | src/point/escape.rs:45-47 | the tag escaper agrees with the measurement escaper on every character except `=` |
| `Escaper.MeasurementNotInjective` | src/point/escape.rs:37-39 | a newline and the two characters `\n` escape to the same text, because backslash is not escaped, so the measurement escaper cannot be undone |
| `Escaper.TagNotInjective` | src/point/escape.rs:45-47 | a tab and the two characters `\t` collide under the tag escaper |
| `Escaper.QuotedRoundTrip` | src/point/escape.rs:41-43 | dropping the backslash before each escaped character recovers the input of `escape_quoted` |
| `Escaper.UnescapeStep` | src/point/escape.rs:42 | unescaping reads one escaped character back and continues after it |
| `Escaper.QuotedInjective` | src/point/escape.rs:41-43 | distinct strings stay distinct under `escape_quoted` |
| `Escaper.QuotedReescape` | src/point/escape.rs:41-43 | an already escaped quote inside plain text is escaped again: backslash and quote each get their own backslash |
| `Escaper.QuotedExample` | src/point/mod.rs:291-294 | `foo \" bar` becomes `foo \\\" bar` |
| `Fields.CheckType` | src/Point/point_values.rs:245-306 | a declared field type is accepted exactly when it is absent or equals the payload's variant; a mismatch is an error naming both types |
| `SortedMap.Get` | src/Point/point_values.rs:97-99 | a lookup finds a value exactly for the keys in the map |
| `SortedMap.Insert` | src/Point/point_values.rs:102-104 | an insert keeps the keys ascending, adds the key, reads the new value back, and leaves every other key's value as it was |
| `SortedMap.InsertBetween` | src/Point/point_values.rs:102-104 | a new key is placed after every smaller key and before every larger one, and the other entries keep their order |
| `SortedMap.Remove` | src/Point/point_values.rs:107-109 | a remove keeps the keys ascending, removes only that key, and is a no-op for an absent key |
| `SortedMap.Keys` | src/Point/point_values.rs:112-114 | the keys of a map come out strictly ascending, in entry order |
| `SortedMap.KeysMembership` | src/Point/point_values.rs:331-333 | a name is among the listed keys exactly when the map has it |
| `SortedMap.FromList` | src/Point/mod.rs:198-203 | collecting pairs into a sorted map gives ascending keys and keeps, for each name, the last value given |
| `SortedMap.Canonical` | src/Point/mod.rs:198-203 | two ascending maps that agree on every lookup are the same list, so the order in which entries arrived never shows |
| `SortedMap.GetAt` | src/Point/point_values.rs:97-99 | in an ascending map, the entry at any position is found under its own key |
| `SortedMap.InIffGet` | src/Point/mod.rs:216-222 | an entry is in an ascending map exactly when looking up its key gives its value |
| `Text.LessTotal` | src/Point/mod.rs:203 | the string order used to sort names is total |
| `Text.LessTransitive` | src/Point/mod.rs:214 | the string order used to sort names is transitive |
| `Text.LessIrreflexive` | src/Point/mod.rs:203 | no name sorts before itself |
| `Text.AscendingDistinct` | src/Point/point_values.rs:112-114 | a strictly ascending name list has no duplicates |
| `Text.NatToString` | src/Point/mod.rs:226-227 | `to_string` of an unsigned number is a non-empty run of digits without a leading zero |
| `Text.ParseNat` | src/Point/mod.rs:226-242 | the timestamp text can be read back exactly when it is a non-empty run of digits |
| `Text.NatToStringRoundTrip` | src/Point/mod.rs:226-242 | reading back the decimal text of a number gives that number |
| `Text.NatToStringInjective` | src/point/mod.rs:232-248 | distinct numbers print differently |
| `Text.IntToString` | src/Point/mod.rs:263 | `to_string` of a signed number starts with `-` exactly for negatives, and contains no `_` |
| `Text.IntToStringRoundTrip` | src/lib.rs:60-65 | the decimal text of a signed number reads back to that number |
| `Text.Split` | src/client/napi_rs/client.rs:140 | splitting on one character always gives at least one piece |
| `Text.SplitJoin` | src/client/native/client.rs:107 | joining newline-free lines with `\n` and splitting again gives the lines back |
| `TaggedPointValues.LookupAgrees` | src/Point/point_values.rs:30-41 | in a valid record, a stored field's type tag matches its payload |
| `TaggedPointValues.New` | src/Point/point_values.rs:73-90 | `new` and `from_measurement` give `Some(measurement)`, no timestamp, no tags and no fields, with empty name lists |
| `TaggedPointValues.SetTimestamp` | src/Point/point_values.rs:63-65 | only the timestamp changes |
| `TaggedPointValues.GetTag` | src/Point/point_values.rs:97-99 | a tag value exists exactly for the stored names |
| `TaggedPointValues.SetTag` | src/Point/point_values.rs:102-104 | the new value is read back; other tags, the fields, the name and the time are untouched |
| `TaggedPointValues.RemoveTag` | src/Point/point_values.rs:107-109 | the tag is gone, every other tag is unchanged, and removing an absent tag is not an error |
| `TaggedPointValues.TagNames` | src/Point/point_values.rs:112-114 | the names are strictly ascending and are exactly the names that have a value |
| `TaggedPointValues.SetTypedField` | src/Point/point_values.rs:126-200 | each typed setter stores its payload under the type of its own variant, keeping the record valid; other fields are unchanged |
| `TaggedPointValues.GetFieldType` | src/Point/point_values.rs:203-208 | a type is reported exactly for stored fields, and it is the stored type tag |
| `TaggedPointValues.GetField` | src/Point/point_values.rs:211-242 | an absent field is `Ok(None)`; it is an error exactly when the field is present and an expected type differs from its type; otherwise the payload is returned |
| `TaggedPointValues.GetTypedField` | src/Point/point_values.rs:117-193 | a typed getter gives `Ok(None)` for an absent field, the payload exactly when the stored type is the asked one, and an error otherwise |
| `TaggedPointValues.SetField` | src/Point/point_values.rs:245-306 | a mismatching declared type fails and changes nothing; otherwise the field is (over)written under the payload's own type and nothing else changes |
| `TaggedPointValues.SetThenGetTyped` | src/Point/point_values.rs:117-306 | `set_field` with a declared type succeeds exactly for a payload of that type, and the matching typed getter then returns that payload |
| `TaggedPointValues.EveryTypeSettable` | src/Point/point_values.rs:245-306 | for every declared type, on every point and name, some payload passes `set_field`'s type check |
| `TaggedPointValues.SetFields` | src/Point/point_values.rs:309-317 | untyped `set_fields` never fails; each name ends with the last value given for it, and other fields are kept |
| `TaggedPointValues.SetFieldsOrderIndependent` | src/Point/point_values.rs:309-317 | in whatever order the map is iterated, `set_fields` builds the same record |
| `TaggedPointValues.RemoveField` | src/Point/point_values.rs:320-328 | an absent field is a not-found error; otherwise exactly that field disappears |
| `TaggedPointValues.GetFieldNames` | src/Point/point_values.rs:331-333 | field names come out strictly ascending and are exactly the stored names |
| `TaggedPointValues.HasFields` | src/Point/point_values.rs:336-338 | true exactly when some field is stored |
| `PlainPointValues.New` | src/point/point_values.rs:58-75 | `new` and `from_measurement` give `Some(measurement)` and nothing else |
| `PlainPointValues.SetTimestamp` | src/point/point_values.rs:49-51 | only the timestamp changes |
| `PlainPointValues.GetTag` | src/point/point_values.rs:82-84 | a tag value exists exactly for the stored names |
| `PlainPointValues.SetTag` | src/point/point_values.rs:87-89 | the new value is read back, and everything else is untouched |
| `PlainPointValues.RemoveTag` | src/point/point_values.rs:92-94 | the tag is gone, and every other tag is unchanged |
| `PlainPointValues.TagNames` | src/point/point_values.rs:97-99 | strictly ascending names, exactly those with a value |
| `PlainPointValues.SetTypedField` | src/point/point_values.rs:111-175 | each typed setter stores its payload as is; other fields are unchanged |
| `PlainPointValues.GetFieldType` | src/point/point_values.rs:178-190 | the type of the stored variant, exactly for stored fields |
| `PlainPointValues.GetField` | src/point/point_values.rs:193-232 | never fails: the stored payload or `None`, whatever type is expected |
| `PlainPointValues.GetTypedField` | src/point/point_values.rs:102-170 | `Ok(None)` when absent, the payload when its variant is the asked type, an error for any other variant |
| `PlainPointValues.SetField` | src/point/point_values.rs:235-291 | a mismatching declared type fails; otherwise the payload is stored and nothing else changes |
| `PlainPointValues.SetFields` | src/point/point_values.rs:294-302 | never fails; each name ends with the last value given for it |
| `PlainPointValues.RemoveField` | src/point/point_values.rs:305-312 | an absent field is a not-found error; otherwise exactly that field goes |
| `PlainPointValues.GetFieldNames` | src/point/point_values.rs:315-317 | strictly ascending, exactly the stored names |
| `PlainPointValues.HasFields` | src/point/point_values.rs:320-322 | true exactly when some field is stored |
| `PointSnapshots.Forget` | src/point/point_values.rs:19-35 | dropping the type tags of a valid record gives a valid lower-case record with the same payloads |
| `PointSnapshots.FieldTypeAgrees` | src/point/point_values.rs:178-190 | both snapshots report the same field type for the same record |
| `PointSnapshots.TypedGettersAgree` | src/point/point_values.rs:102-170 | the typed getters of the two snapshots fail on the same inputs and otherwise return the same value |
| `PointSnapshots.GetFieldDiffers` | src/point/point_values.rs:193-232 | `get_field` differs between the snapshots exactly when a present field is asked for under another type |
| `PointSnapshots.SetFieldCommutes` | src/point/point_values.rs:235-291 | `set_field` fails on the same inputs in both snapshots and otherwise commutes with dropping the tags |
| `PointSnapshots.RemoveFieldCommutes` | src/point/point_values.rs:305-312 | `remove_field` fails on the same inputs in both snapshots and otherwise commutes with dropping the tags |
| `LineProtocol.PrefixedIsJoin` | src/Point/mod.rs:205-221 | a tags segment (each piece behind its own comma) is a comma followed by the comma-joined pieces, or empty |
| `LineProtocol.PrefixedAppend` | src/Point/mod.rs:196-224 | the default-tag pieces followed by the explicit-tag pieces form one segment |
| `LineProtocol.CommaJoin` | src/Point/mod.rs:172-186 | the loop that pushes a comma before every piece but the first builds the comma join of non-empty pieces, and builds an empty line exactly when every piece is empty |
| `LineProtocol.JoinSnoc` | src/Point/mod.rs:174-176 | appending one piece to a comma join adds a comma and the piece |
| `LineProtocol.TimeText` | src/Point/mod.rs:226-242 | the timestamp text is digits that read back as the point's own timestamp, or else as the clock truncated to the requested unit (or the encoder's default unit) |
| `LineProtocol.LastWordAfterSpace` | src/Point/mod.rs:246-252 | the text after the last space of `... time` is the time |
| `LineProtocol.Layout` | src/Point/mod.rs:246-252 | the line starts with the escaped measurement and ends with the time after the last space |
| `LineProtocol.Kept` | src/Point/mod.rs:205-221 | a tag is written exactly when its name is non-empty and not shadowed, in its original order; an ascending list stays ascending |
| `LineProtocol.KeptAll` | src/Point/mod.rs:214-224 | a list whose names are all non-empty is written whole |
| `TaggedLineProtocol.SetMeasurement` | src/Point/mod.rs:45-50 | the empty string leaves the name as it was; any other name replaces it; nothing else changes |
| `TaggedLineProtocol.FieldTextRoundTrip` | src/Point/mod.rs:261-275 | knowing the field's type, the text of an integer (`…i`), unsigned (`…u`), boolean (`T`/`F`) or string field (quoted-escaped, no quotes) reads back to the value |
| `TaggedLineProtocol.FieldPieces` | src/Point/mod.rs:172-186 | one non-empty `escaped-name=value` piece per field, in ascending name order |
| `TaggedLineProtocol.FieldsLine` | src/Point/mod.rs:170-190 | the fields segment is the comma join of the field pieces, and it is empty exactly when the point has no fields |
| `TaggedLineProtocol.TagPieces` | src/Point/mod.rs:209-221 | one `escaped-name=value` piece per written tag, in order |
| `TaggedLineProtocol.ToLineProtocol` | src/Point/mod.rs:160-253 | no line without a measurement or without fields; otherwise the line starts with the escaped measurement and ends with the point's timestamp, or with the clock in the given unit and in milliseconds when none is given |
| `TaggedLineProtocol.ToString` | src/Point/mod.rs:255-258 | `to_string` is `""` exactly when there is no line, and otherwise it is the line without precision or default tags |
| `TaggedLineProtocol.TagEntriesContents` | src/Point/mod.rs:196-224 | a tag `name=v` is written exactly when the name is non-empty and either the point has it with value `v`, or the point lacks it and the default tags give `v`; a default tag never overrides an explicit one |
| `TaggedLineProtocol.TagNamesDistinct` | src/Point/mod.rs:196-224 | no tag name is written twice |
| `TaggedLineProtocol.DisjointHalvesDistinct` | src/Point/mod.rs:198-201 | default names avoid the explicit names, so the two ascending halves share no name |
| `TaggedLineProtocol.ValidDistinct` | src/Point/point_values.rs:112-114 | the names of a sorted tag map are pairwise distinct |
| `TaggedLineProtocol.DefaultTagsOrderIndependent` | src/Point/mod.rs:196-212 | two iteration orders of the same default-tag map give the same line, because the defaults are sorted before they are written |
| `TaggedLineProtocol.TagsLineShape` | src/Point/mod.rs:192-224 | the tags segment is a comma followed by the comma-joined tag pieces, or empty when no tag is written |
| `TaggedLineProtocol.FieldTextExamples` | src/Point/mod.rs:261-275 | `Integer(51)` renders as `51i`, `UInteger(51)` as `51u`, `false` as `F` and `-7` as `-7i` |
| `TaggedLineProtocol.TagOrderExample` | src/Point/mod.rs:214-224 | tags set as `z=1` and then `a=2` are written `,a=2,z=1` |
| `TaggedLineProtocol.PlainTagPiece` | src/Point/mod.rs:221 | a lower-case tag name is written unescaped as `name=value` |
| `TaggedLineProtocol.TagOrderLine` | src/Point/mod.rs:214 | a point whose tag map is `a=2, z=1` has the tags segment `,a=2,z=1` |
| `TaggedLineProtocol.TagOrderPieces` | src/Point/mod.rs:218-221 | the pieces `a=2` and `z=1` form the segment `,a=2,z=1` |
| `TaggedLineProtocol.DefaultTagShadowedExample` | src/Point/mod.rs:196-212 | an explicit `host=serverA` with a default `host=default` writes only `,host=serverA` |
| `TaggedLineProtocol.ShadowedLine` | src/Point/mod.rs:198-201 | a point whose only tag is `host=serverA` writes `,host=serverA` even with the default `host=default` |
| `TaggedLineProtocol.ShadowedPieces` | src/Point/mod.rs:220-221 | the single piece `host=serverA` forms the segment `,host=serverA` |
| `TaggedLineProtocol.WithSpaceEscaped` | src/Point/mod.rs:244-248 | the measurement `with space` is written `with\ space` |
| `TaggedLineProtocol.WithSpacePoint` | src/Point/point_values.rs:196-200 | a fresh `with space` point given the boolean field `dummy=true` holds exactly that field, and no tags or timestamp |
| `TaggedLineProtocol.DummyFieldsLine` | src/Point/mod.rs:172-186 | the single field `dummy=true` gives the fields segment `dummy=T` |
| `TaggedLineProtocol.DummyName` | src/Point/mod.rs:169 | the field name `dummy` is written unescaped |
| `TaggedLineProtocol.WithSpaceExample` | src/Point/mod.rs:160-253 | `with space` with only the field `dummy=true` and second precision is `with\ space dummy=T <seconds>`, with one space after the measurement |
| `TaggedLineProtocol.WithSpaceLine` | src/Point/mod.rs:226-252 | a point with name `with space` and only the field `dummy=true` renders as that line |
| `TaggedLineProtocol.WithSpaceLayout` | src/Point/mod.rs:246-252 | the layout of that line with an empty tags segment |
| `PlainLineProtocol.SetMeasurement` | src/point/mod.rs:46-50 | the empty string leaves the name as it was; nothing else changes |
| `PlainLineProtocol.FieldPieces` | src/point/mod.rs:174-188 | one non-empty `escaped-name=value` piece per field, in ascending name order |
| `PlainLineProtocol.FieldsLine` | src/point/mod.rs:172-192 | the fields segment is the comma join of the pieces, and it is empty exactly when there are no fields |
| `PlainLineProtocol.DefaultEntries` | src/point/mod.rs:198-220 | the default tags written are those whose name is non-empty and not an explicit tag name, in the caller's iteration order |
| `PlainLineProtocol.DefaultPieces` | src/point/mod.rs:205-219 | one piece per written default tag, with both name and value escaped |
| `PlainLineProtocol.TagPieces` | src/point/mod.rs:222-230 | one piece per explicit tag, with only the name escaped |
| `PlainLineProtocol.ToLineProtocol` | src/point/mod.rs:161-258 | no line without a measurement or without fields; otherwise the line starts with the escaped measurement and ends with the point's timestamp, or with the clock in the given unit and in nanoseconds when none is given |
| `PlainLineProtocol.Display` | src/point/mod.rs:261-270 | `Display` writes `""` exactly when there is no line, and otherwise the line without precision or default tags |
| `PlainLineProtocol.DefaultEntriesCount` | src/point/mod.rs:198-220 | each default pair is written as often as the map yields it when its name passes the filter, and never otherwise |
| `PlainLineProtocol.DefaultEntriesPermutation` | src/point/mod.rs:198-220 | whatever the hash map's iteration order, the same default tags are written, as a permutation of each other |
| `PlainLineProtocol.DefaultTagWritten` | src/point/mod.rs:198-220 | a default pair is written exactly when its name is non-empty and the point has no tag of that name |
| `PlainLineProtocol.ExplicitTagWritten` | src/point/mod.rs:222-230 | an explicit tag is written with its value exactly when its name is non-empty |
| `PlainLineProtocol.DefaultsDisjointFromExplicit` | src/point/mod.rs:198-203 | no name is written both as a default and as an explicit tag |
| `PlainLineProtocol.TagsLineShape` | src/point/mod.rs:194-230 | the tags segment is a comma followed by the joined default pieces then explicit pieces, or empty |
| `EncoderSnapshots.SameFieldPieces` | src/point/mod.rs:174-188 | given the other snapshot's escaper and field text, the lower-case encoder writes the same field pieces |
| `EncoderSnapshots.SameTagsLine` | src/point/mod.rs:222-230 | without default tags both encoders write the same tags segment |
| `EncoderSnapshots.SameLineWithoutDefaults` | src/point/mod.rs:161-258 | with a precision given and no default tags, both encoders write the same line |
| `EncoderSnapshots.DefaultUnitsDiffer` | src/point/mod.rs:232-248 | without timestamp or precision, the lower-case encoder stamps the clock in nanoseconds and the upper-case one in milliseconds |
| `Options.QueryTypeDisplay` | src/client/options.rs:32-41 | `Display for QueryType` agrees with `QueryType::str` |
| `Options.ParseQueryType` | src/client/options.rs:22-30 | a name read back is the name of the query type returned |
| `Options.QueryTypeRoundTrip` | src/client/options.rs:22-30 | `sql`, `influxql` and `flightsql` read back to their query types, so the names are distinct |
| `Options.SerdeNameVsStr` | src/client/options.rs:10-30 | the camelCase names `Serialize` writes for the query type (`sql`, `influxQl`, `flightSql`) are distinct, and they equal `QueryType::str` only for `Sql` |
| `Options.ParseTimeUnitV2` | src/client/options.rs:67-76 | a v2 unit name read back is the name of the unit returned |
| `Options.TimeUnitV2RoundTrip` | src/client/options.rs:67-76 | `s`, `ms`, `us` and `ns` read back to their units, so the display is injective |
| `Options.ParseTimeUnitV3` | src/client/options.rs:95-104 | a v3 unit name read back is the name of the unit returned |
| `Options.TimeUnitV3RoundTrip` | src/client/options.rs:95-104 | `second` … `nanosecond` read back to their units, so the display is injective |
| `Options.UnitNanos` | src/Point/mod.rs:233-238 | every unit is a positive number of nanoseconds |
| `Options.NowIn` | src/Point/mod.rs:229-241 | the clock in a unit is the whole number of units elapsed, with the remainder dropped |
| `Options.NowInCoarsens` | src/point/mod.rs:239-244 | seconds are milliseconds / 1000, milliseconds are microseconds / 1000, and microseconds are nanoseconds / 1000 |
| `Options.NowInMonotone` | src/point/mod.rs:235-247 | a later clock never reads earlier, in any unit |
| `Options.DefaultWriteOptions` | src/client/options.rs:130-140 | nanosecond v3 precision, no headers, gzip on, `no_sync` `Some(true)`, no default tags |
| `Options.DefaultFlightOptions` | src/client/options.rs:170-177 | keep-alive interval 5 and timeout 20 |
| `Options.KeysOf` | src/client/options.rs:187-205 | the keys of an object, one per member, in order |
| `Options.PayloadObject` | src/client/options.rs:187-205 | the `json!` literal always has `database`, `sql_query` and `query_type`, and has `params` exactly when there are parameters; the members are in the literal's order |
| `Options.PayloadRoundTrip` | src/client/options.rs:187-205 | the payload is recovered from its object, except that an unset query type comes back as `Sql` |
| `Values.TimeString` | src/lib.rs:60-65 | `"<v>_<unit>"` is longer than the unit |
| `Values.TimeStringRoundTrip` | src/lib.rs:60-65 | a time value and its unit are recovered from the string the host receives |
| `Values.FallbackIsNotTime` | src/lib.rs:39 | the fallback text does not read as a time string |
| `Values.ToHost` | src/lib.rs:43-69 | `Null` alone becomes host null; integers and dates become host integers; both string kinds, time values and `Fallback` become host strings, time values readable back as value and unit |
| `Values.DatesRenderAsIntegers` | src/lib.rs:47-48 | `Date32` reaches the host as `Int32` does, and `Date64` as `Int64` does |
| `Values.StringsRenderVerbatim` | src/lib.rs:57-67 | `Text` and `String` arrive as their text, and `Fallback` as `<unsupported type>` |
| `Values.FallbackLooksLikeString` | src/lib.rs:66-67 | the host cannot tell `Fallback` from a `String` holding the fallback text |
| `Columns.UnitTextInjective` | src/serializer/library_serializer.rs:255-303 | distinct time units get distinct unit tags |
| `Columns.PlainValue` | src/serializer/library_serializer.rs:75-234 | a plain column's value has the variant named after its type, except that `Utf8View` gives `Text` and `Utf8`/`LargeUtf8` give `String`; never `Null` or `Fallback` |
| `Columns.PlainValueLossless` | src/serializer/library_serializer.rs:75-234 | every plain payload is recovered from its value |
| `LibrarySerializer.Time32Cells` | src/serializer/library_serializer.rs:362-381 | one entry per row: `None` for a null slot, otherwise the value with its unit |
| `LibrarySerializer.Time64Cells` | src/serializer/library_serializer.rs:391-425 | one entry per row: `None` for a null slot, otherwise the value with its unit |
| `LibrarySerializer.Constant` | src/serializer/library_serializer.rs:72-74 | `resize(row_count, Some(v))` gives `row_count` copies of `Some(v)` |
| `LibrarySerializer.DurationColumn` | src/serializer/library_serializer.rs:255-303 | a duration column gives 64-bit time values tagged with the unit's text, `None` for nulls |
| `LibrarySerializer.TimestampColumn` | src/serializer/library_serializer.rs:305-353 | a timestamp column, whatever its time zone, converts as a duration column does |
| `LibrarySerializer.Time32Column` | src/serializer/library_serializer.rs:355-389 | seconds and milliseconds give tagged values; any other unit fills the column with `<unsupported type>` strings |
| `LibrarySerializer.Time64Column` | src/serializer/library_serializer.rs:391-425 | microseconds and nanoseconds give tagged values; any other unit fills the column with `<unsupported type>` strings |
| `LibrarySerializer.PlainColumn` | src/serializer/library_serializer.rs:75-84 | one entry per row, `None` exactly for the null slots, otherwise the slot's value |
| `LibrarySerializer.ConvertColumn` | src/serializer/library_serializer.rs:63-253 | one entry per row for every type: a `Null` column is all `Some(Null)`, an unlisted type all `Some(Fallback)`, and a plain type `None` exactly for the null slots |
| `LibrarySerializer.TemporalCells` | src/serializer/library_serializer.rs:235-246 | a non-null duration, timestamp or supported-unit time slot becomes its value tagged with the unit text |
| `LibrarySerializer.UnsupportedUnits` | src/serializer/library_serializer.rs:382-387 | a `Time32` column in µs/ns or a `Time64` column in s/ms gives `<unsupported type>` in every row, never `None` |
| `LibrarySerializer.LastNamed` | src/serializer/library_serializer.rs:48-53 | finds the last column with a given name, or none |
| `LibrarySerializer.RowOfContents` | src/serializer/library_serializer.rs:48-53 | a row has a key exactly for each column name, holding the cell of the last column so named |
| `LibrarySerializer.Rows` | src/serializer/library_serializer.rs:31-33 | a batch has exactly `row_count` rows |
| `LibrarySerializer.Serialize` | src/serializer/library_serializer.rs:25-59 | an error batch gives `None`; otherwise `row_count` rows in which row `r` maps each column name to that column's entry `r` |
| `LibrarySerializer.RowOfStep` | src/serializer/library_serializer.rs:50-52 | inserting the next column updates every row under that column's name |
| `LibrarySerializer.Transpose` | src/serializer/library_serializer.rs:31-53 | starting from empty maps and inserting each column's entry `r` into row `r` builds the rows of the batch |
| `LibrarySerializer.InsertColumn` | src/serializer/library_serializer.rs:48-53 | the inner loop adds one column to every row |
| `ByBatch.CellValue` | src/query/by_batch.rs:96-350 | per cell: a `Null` type gives `Some(Null)`, an unlisted type `Some(Fallback)`, an unsupported time unit the unsupported text, and a plain type `None` exactly for a null slot |
| `ByBatch.TemporalCell` | src/query/by_batch.rs:96-350 | a time cell carries its unit tag, or the unsupported text for an unsupported unit |
| `ByBatch.CellAgrees` | src/query/by_batch.rs:106-346 | the per-cell dispatch agrees with the per-column converter on every cell |
| `ByBatch.CellsRowIsRowOf` | src/query/by_batch.rs:96-106 | serializing one row gives the same map as transposing the converted columns |
| `ByBatch.SerializeBatch` | src/query/by_batch.rs:82-94 | one row per index, in the order of the indices, each equal to that row of the batch |
| `ByBatch.ThreadsCount` | src/query/by_batch.rs:50-52 | the thread count is between 1 and 8: with a known parallelism it is that parallelism capped at 8, and it is 4 when the parallelism is unknown |
| `ByBatch.DivCeil` | src/query/by_batch.rs:54 | the chunk size is the least number whose product with the thread count reaches the row count |
| `ByBatch.Range` | src/query/by_batch.rs:46 | `a..b` lists the indices from `a` to `b`, in order |
| `ByBatch.Chunks` | src/query/by_batch.rs:57-58 | every chunk is non-empty, within `0..row_count`, and at most `chunk_size` long |
| `ByBatch.ChunksCover` | src/query/by_batch.rs:57-60 | the chunks' indices, chunk after chunk, are exactly `0..row_count` in order, each once |
| `ByBatch.ChunkAt` | src/query/by_batch.rs:57-58 | chunk `k` is `[k * size, min(k * size + size, row_count))` |
| `ByBatch.ChunksAdjacent` | src/query/by_batch.rs:57-58 | each chunk ends where the next begins, so no two chunks overlap |
| `ByBatch.ChunksCount` | src/query/by_batch.rs:57 | the number of chunks is the row count divided by the chunk size, rounded up |
| `ByBatch.AtMostThreadsChunks` | src/query/by_batch.rs:54-65 | with `chunk_size = ceil(row_count / threads)` the size is at least 1 and there are at most `threads` chunks |
| `ByBatch.FlattenSnoc` | src/query/by_batch.rs:67-70 | extending the output with one more worker's rows appends them |
| `ByBatch.SerializeChunks` | src/query/by_batch.rs:57-70 | concatenating the workers' rows in spawn order is serializing all the chunks' indices at once |
| `ByBatch.SerializeBatchAppend` | src/query/by_batch.rs:82-94 | serializing two index lists one after the other is serializing their concatenation |
| `ByBatch.SpawnWorkers` | src/query/by_batch.rs:57-65 | one worker per chunk, each holding the rows of its chunk |
| `ByBatch.SpawnStep` | src/query/by_batch.rs:57-58 | chunk `h` starts at `h * size`, and it is the last exactly when the next start reaches the row count |
| `ByBatch.JoinWorkers` | src/query/by_batch.rs:66-70 | the output is the workers' rows concatenated in spawn order |
| `ByBatch.Next` | src/query/by_batch.rs:36-80 | end of stream and an error batch both give `None`; a batch gives all its rows in order, inline below 100 rows and otherwise from at most `threads` workers |
| `Stream.Oks` | src/query/common/query_processor.rs:19 | every item is sent as `Ok(item)` |
| `Stream.OksAppend` | src/query/common/query_processor.rs:17-22 | the items sent for two stretches are those of each in turn |
| `Stream.SendItems` | src/query/common/query_processor.rs:18-22 | the items delivered from one batch are a prefix of it; every send counted was accepted, and a short prefix means the next send was refused |
| `Stream.Publish` | src/query/common/query_processor.rs:14-24 | every published item is `Ok`; no error is ever sent |
| `Stream.FailedSendDropsBatchRest` | src/query/common/query_processor.rs:18-21 | a refused send drops the rest of that batch only, and publishing goes on with the next batch |
| `Stream.AllAccepted` | src/query/common/query_processor.rs:14-24 | with a receiver that takes everything, exactly the serializer's output arrives, in batch order and in order within a batch, and batches the serializer rejects contribute nothing |
| `Stream.ClosedReceiverPrefix` | src/query/common/query_processor.rs:14-24 | a receiver that goes away after `k` sends receives exactly the first `k` produced items |
| `Client.ChosenSerializer` | src/client/napi_rs/client.rs:59 | a given serializer is kept, and a missing one becomes `Unsafe`, which is not `Serializer::default()` (the same rule at src/client/native/client.rs:47) |
| `Client.DispatchBijective` | src/client/napi_rs/client.rs:76-89 | Library, Unsafe and Raw go to stream kinds A, B and C one-to-one (the same dispatch at src/client/native/client.rs:63-76) |
| `Client.DefaultClientStream` | src/serializer/common/mod.rs:24-28 | a client built without a choice returns JSON objects (B), though the enum's default would give library rows (A) |
| `Client.Classify` | src/client/napi_rs/client.rs:145-157 | success exactly for an answered 200 or 204; "Unauthorized" exactly for 401, answered or carried by a transport error; "Unknown" for any other answer; `Cancelled` for any other transport error (the same table at src/client/native/client.rs:112-124) |
| `Client.Write` | src/client/native/client.rs:107-124 | the body is the lines joined by newlines, which splits back into those lines when they contain no newline; no lines give an empty body; the outcome is the classification of the server's answer |
| `AsyncIterator.NewQueryResult` | src/query/query_processor.rs:15-20 | a given serializer is kept and a missing one becomes `Unsafe` |
| `AsyncIterator.NewCounter` | src/query/query_processor.rs:77-79 | a new counter starts at 0 with the given bound |
| `AsyncIterator.Iterate` | src/query/query_processor.rs:83-88 | the iterator starts with the counter's current value and bound |
| `AsyncIterator.Next` | src/query/query_processor.rs:100-114 | below the bound the current value is yielded, not done, and the counter moves up by one; at or above it the iterator is done with no value and nothing changes |
| `AsyncIterator.Return` | src/query/query_processor.rs:117-122 | `return` is always done with no value, and the state is kept |
| `AsyncIterator.Throw` | src/query/query_processor.rs:125-130 | `throw` always fails with `GenericFailure`, and the state is kept |
| `AsyncIterator.Drain` | src/query/query_processor.rs:100-114 | `n` calls of `next` give `n` results |
| `AsyncIterator.DrainCounts` | src/query/query_processor.rs:100-114 | from any state, successive calls yield `current`, `current + 1`, … up to `max - 1` and then done for ever; the counter stops at `max` and never passes it |
| `AsyncIterator.CounterYieldsRange` | src/query/query_processor.rs:77-114 | a fresh counter with bound `max >= 0` yields exactly `0 … max - 1` and is then done |

## Left out

- **Wall clock.** `SystemTime::now` is the parameter `nowNs`; `duration_since(UNIX_EPOCH).unwrap_or_default()` is taken to succeed.
- **Floating point.** Float payloads are bit patterns. `f64::to_string` of a Float field is the parameter `floatText`. `Float16` slots are taken as already widened to `f32`.
- **Arrow internals.** Array downcasts, `is_null`/`value` and the IPC writer are not modelled. A column is its declared type plus one optional payload per row, assumed to fit that type (`Columns.WellTyped`).
- **Other serializers.** The unsafe (serde_arrow) and raw (IPC) serializers are foreign-library wrappers. Only the stream kind they select is modelled. The browser serializer and query processor are placeholder stubs.
- **Concurrency.** The per-column `spawn_blocking` tasks, the batch workers, `block_on` and the bounded mpsc channel (capacity 100) are run one after another. A blocked or awaited send is not modelled; the receiver's answers are the oracle `accepts`.
- **Network.** The tonic channel, `do_get`, the HTTP request, `to_header_map`, the write URL and precision path (`get_write_path`), and the browser client are not modelled. A write's server answer is a parameter `send`.
- **Payload JSON text.** Only the members of the `json!` literal and the query-type defaulting are modelled, not the text `to_string` writes: neither the order of the members (which depends on how `serde_json` is built) nor the exact text. The camelCase variant names serde gives `query_type` (`influxQl`, `flightSql`), which differ from `QueryType::str`, are stated by `Options.SerdeNameVsStr`. The code does not replace newlines in the query text before sending, so the model does not either.
- **napi layer.** `ToNapiValue` mechanics, attribute macros and `Either` marshalling are not modelled. Host values are an abstract datatype, and the width of a host integer is not modelled.
- **Superseded snapshots.** `src/write/*` holds only constants, a constructor and trivial getters. It is not part of this model.
- **Escaping in `src/point/mod.rs`.** The functions it calls (`escape(_, COMMA_EQ_SPACE)`, `escape(_, COMMA_SPACE)`) and the `Display` of field values live in modules that are not shown. They are the `Renderers` parameters of `PlainLineProtocol`. `EncoderSnapshots` instantiates them with the `src/Point` escapers and field text. `Escaper.QuotedExample` reads the `DOUBLE_QUOTE` escape of that file's tests as `escape_quoted`.
- `Values.ToHost`: does not model how wide a host integer or big integer is, or how floats are converted.
- `TaggedLineProtocol.ToLineProtocol`: its contract fixes when a line exists, the measurement prefix and the timestamp. The tags and fields segments are stated separately (`TagsLineShape`, `TagEntriesContents`, `FieldsLine`). The full line is stated only in `WithSpaceExample`.
- `PlainLineProtocol.ToLineProtocol`: the same split as the other encoder. The full line is related to the other encoder by `EncoderSnapshots.SameLineWithoutDefaults`.
- `ByBatch.Next`: the worker count bounds the fan-out; which thread runs which chunk, and when, is not modelled.
- `ByBatch.ThreadsCount`: `available_parallelism` is a parameter.
- `Stream.Publish`: the items published are stated for an oracle receiver; timing and back-pressure are not modelled.
- `Client.Write`: the request headers, gzip and the write URL are not modelled.
- `Options.PayloadObject`: states the object's keys and values in the order of the `json!` literal, not the JSON text serde produces or its member order.
- `Columns.PlainValue`: the `Utf8 | LargeUtf8` arm reads the column as a `StringArray`, whose offsets are 32-bit. The model assumes that read succeeds for a `LargeUtf8` column and gives `String` values. Arrow's conversion is not part of this model, and it most likely rejects a `LargeUtf8` column, which would panic inside the blocking task. `LibrarySerializer.ConvertColumn` and `ByBatch.CellValue` inherit this assumption.
- **Code differs from the line-protocol conventions and its own documentation; the model follows the code.**
  - The measurement and tag escapers do not escape backslash.
  - Tag values are written unescaped, except default-tag values in `src/point/mod.rs`.
  - String fields in `src/Point/mod.rs` are quoted-escaped but not wrapped in quotes.
  - One space separates the measurement (with its tags) from the fields.
  - The `no_sync` field is documented as defaulting to false, but `WriteOptions::default` sets `Some(true)`.
  - `Serializer::default()` is `Library`, but both clients fall back to `Unsafe`.
  - A batch that fails to serialize is skipped and the stream goes on.
  - The two encoders differ on purpose and both are modelled: sorted vs. iteration-order default tags, escaped vs. verbatim default-tag values, and a default clock unit of ms vs. ns.
