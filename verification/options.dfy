/**
 * The option tables of `src/client/options.rs`: query-type and time-unit names,
 * write and flight defaults, and the key structure of the query payload.
 */
module Options {
  import opened Wrappers
  import opened Numbers

  // ---------------------------------------------------------------------------
  // Query type
  // ---------------------------------------------------------------------------

  datatype QueryType = Sql | InfluxQl | FlightSql

  /** `QueryType::str`. */
  function QueryTypeStr(q: QueryType): string {
    match q
    case Sql => "sql"
    case InfluxQl => "influxql"
    case FlightSql => "flightsql"
  }

  /** `Display for QueryType`, written out separately in the source. */
  function QueryTypeDisplay(q: QueryType): (s: string)
    ensures s == QueryTypeStr(q)
  {
    match q
    case Sql => "sql"
    case InfluxQl => "influxql"
    case FlightSql => "flightsql"
  }

  /** The inverse of the name table. */
  function ParseQueryType(s: string): (r: Option<QueryType>)
    ensures r.Some? ==> QueryTypeStr(r.value) == s
  {
    if s == "sql" then Some(Sql)
    else if s == "influxql" then Some(InfluxQl)
    else if s == "flightsql" then Some(FlightSql)
    else None
  }

  /** Every query type is read back from its name, so the names are distinct. */
  lemma QueryTypeRoundTrip(q: QueryType)
    ensures ParseQueryType(QueryTypeStr(q)) == Some(q)
  {
  }

  /**
   * The name `Serialize` gives a variant under `rename_all = "camelCase"`: the
   * text the payload carries under `query_type`.
   */
  function SerdeName(q: QueryType): string {
    match q
    case Sql => "sql"
    case InfluxQl => "influxQl"
    case FlightSql => "flightSql"
  }

  /**
   * The serialized names are distinct, and they agree with `QueryType::str` only
   * for `Sql`: the server is sent `influxQl` and `flightSql`, not `influxql` and
   * `flightsql`.
   */
  lemma SerdeNameVsStr(q: QueryType, q': QueryType)
    ensures SerdeName(q) == SerdeName(q') <==> q == q'
    ensures SerdeName(q) == QueryTypeStr(q) <==> q == Sql
  {
    assert SerdeName(InfluxQl)[6] != QueryTypeStr(InfluxQl)[6];
    assert SerdeName(FlightSql)[6] != QueryTypeStr(FlightSql)[6];
  }

  // ---------------------------------------------------------------------------
  // Time units and precision
  // ---------------------------------------------------------------------------

  datatype TimeUnitV2 = Second | Millisecond | Microsecond | Nanosecond

  datatype TimeUnitV3 = SecondV3 | MillisecondV3 | MicrosecondV3 | NanosecondV3

  /** `Precision`: a unit of either API generation. */
  datatype Precision = V2(v2: TimeUnitV2) | V3(v3: TimeUnitV3)

  /** `Display for TimeUnitV2`. */
  function TimeUnitV2Text(u: TimeUnitV2): string {
    match u
    case Second => "s"
    case Millisecond => "ms"
    case Microsecond => "us"
    case Nanosecond => "ns"
  }

  function ParseTimeUnitV2(s: string): (r: Option<TimeUnitV2>)
    ensures r.Some? ==> TimeUnitV2Text(r.value) == s
  {
    if s == "s" then Some(Second)
    else if s == "ms" then Some(Millisecond)
    else if s == "us" then Some(Microsecond)
    else if s == "ns" then Some(Nanosecond)
    else None
  }

  /** The v2 unit names are read back, hence pairwise distinct. */
  lemma TimeUnitV2RoundTrip(u: TimeUnitV2)
    ensures ParseTimeUnitV2(TimeUnitV2Text(u)) == Some(u)
  {
  }

  /** `Display for TimeUnitV3`. */
  function TimeUnitV3Text(u: TimeUnitV3): string {
    match u
    case SecondV3 => "second"
    case MillisecondV3 => "millisecond"
    case MicrosecondV3 => "microsecond"
    case NanosecondV3 => "nanosecond"
  }

  function ParseTimeUnitV3(s: string): (r: Option<TimeUnitV3>)
    ensures r.Some? ==> TimeUnitV3Text(r.value) == s
  {
    if s == "second" then Some(SecondV3)
    else if s == "millisecond" then Some(MillisecondV3)
    else if s == "microsecond" then Some(MicrosecondV3)
    else if s == "nanosecond" then Some(NanosecondV3)
    else None
  }

  /** The v3 unit names are read back, hence pairwise distinct. */
  lemma TimeUnitV3RoundTrip(u: TimeUnitV3)
    ensures ParseTimeUnitV3(TimeUnitV3Text(u)) == Some(u)
  {
  }

  /** Nanoseconds in one unit. */
  function UnitNanos(u: TimeUnitV2): (n: nat)
    ensures n > 0
  {
    match u
    case Second => 1_000_000_000
    case Millisecond => 1_000_000
    case Microsecond => 1_000
    case Nanosecond => 1
  }

  /**
   * `Duration::as_secs` / `as_millis` / `as_micros` / `as_nanos` of the time since
   * the epoch, given in nanoseconds: whole units elapsed, the remainder dropped.
   */
  function NowIn(u: TimeUnitV2, nowNs: nat): (r: nat)
    ensures r * UnitNanos(u) <= nowNs < (r + 1) * UnitNanos(u)
  {
    match u
    case Second => nowNs / 1_000_000_000
    case Millisecond => nowNs / 1_000_000
    case Microsecond => nowNs / 1_000
    case Nanosecond => nowNs
  }

  /** Truncating to a coarser unit is truncating the finer reading once more. */
  lemma NowInCoarsens(nowNs: nat)
    ensures NowIn(Second, nowNs) == NowIn(Millisecond, nowNs) / 1000
    ensures NowIn(Millisecond, nowNs) == NowIn(Microsecond, nowNs) / 1000
    ensures NowIn(Microsecond, nowNs) == NowIn(Nanosecond, nowNs) / 1000
  {
  }

  /** A later clock never reads earlier, in any unit. */
  lemma NowInMonotone(u: TimeUnitV2, a: nat, b: nat)
    requires a <= b
    ensures NowIn(u, a) <= NowIn(u, b)
  {
  }

  // ---------------------------------------------------------------------------
  // Defaults
  // ---------------------------------------------------------------------------

  /** `WriteOptions`; the header and default-tag maps are lists of pairs. */
  datatype WriteOptions = WriteOptions(
    precision: Option<Precision>,
    headers: Option<seq<(string, string)>>,
    gzip: bool,
    noSync: Option<bool>,
    defaultTags: Option<seq<(string, string)>>)

  /**
   * `WriteOptions::default`: nanosecond v3 precision, gzip on, and `no_sync`
   * explicitly on (the field's documentation says its default is false).
   */
  function DefaultWriteOptions(): (w: WriteOptions)
    ensures w.precision == Some(V3(NanosecondV3))
    ensures w.headers.None? && w.defaultTags.None?
    ensures w.gzip && w.noSync == Some(true)
  {
    WriteOptions(Some(V3(NanosecondV3)), None, true, Some(true), None)
  }

  datatype FlightOptions = FlightOptions(keepAliveInterval: Option<U32>, keepAliveTimeout: Option<U32>)

  /** `FlightOptions::default`: keep-alive every 5 s, time out after 20 s. */
  function DefaultFlightOptions(): (f: FlightOptions)
    ensures f.keepAliveInterval == Some(5) && f.keepAliveTimeout == Some(20)
    ensures f.keepAliveInterval.value < f.keepAliveTimeout.value
  {
    FlightOptions(Some(5), Some(20))
  }

  // ---------------------------------------------------------------------------
  // Query payload
  // ---------------------------------------------------------------------------

  datatype QueryPayload = QueryPayload(
    database: string,
    query: string,
    queryType: Option<QueryType>,
    params: Option<seq<(string, string)>>)

  /** A JSON member value, as far as the payload needs one. */
  datatype JsonValue = JsonString(s: string) | JsonQueryType(q: QueryType) | JsonMap(entries: seq<(string, string)>)

  /** The keys of an object, in order. */
  function KeysOf(obj: seq<(string, JsonValue)>): (ks: seq<string>)
    ensures |ks| == |obj| && forall i :: 0 <= i < |obj| ==> ks[i] == obj[i].0
  {
    seq(|obj|, i requires 0 <= i < |obj| => obj[i].0)
  }

  /** The value under the first occurrence of `k`. */
  function Member(obj: seq<(string, JsonValue)>, k: string): Option<JsonValue>
    decreases |obj|
  {
    if |obj| == 0 then None else if obj[0].0 == k then Some(obj[0].1) else Member(obj[1..], k)
  }

  /**
   * `Into<String> for QueryPayload`, as the object literal handed to `json!`:
   * always `database`, `sql_query` and `query_type` (`Sql` when unset), and
   * `params` exactly when there are parameters. The members are listed in the
   * literal's order; the order in which `to_string` writes them depends on the
   * map `serde_json` is built with, which is not part of this model.
   */
  function PayloadObject(p: QueryPayload): (obj: seq<(string, JsonValue)>)
    ensures |obj| == 3 || |obj| == 4
    ensures |obj| == 4 <==> p.params.Some?
    ensures KeysOf(obj)[..3] == ["database", "sql_query", "query_type"]
    ensures |obj| == 4 ==> obj[3].0 == "params"
  {
    var base := [("database", JsonString(p.database)),
                 ("sql_query", JsonString(p.query)),
                 ("query_type", JsonQueryType(p.queryType.GetOr(Sql)))];
    match p.params
    case Some(params) => base + [("params", JsonMap(params))]
    case None => base
  }

  /** Reads a payload back from its object. */
  function PayloadFromObject(obj: seq<(string, JsonValue)>): Option<QueryPayload> {
    match (Member(obj, "database"), Member(obj, "sql_query"), Member(obj, "query_type"))
    case (Some(JsonString(db)), Some(JsonString(q)), Some(JsonQueryType(t))) =>
      var params := match Member(obj, "params")
        case Some(JsonMap(ps)) => Some(ps)
        case _ => None;
      Some(QueryPayload(db, q, Some(t), params))
    case _ => None
  }

  /** The object loses nothing but the distinction between an unset query type and `Sql`. */
  lemma PayloadRoundTrip(p: QueryPayload)
    ensures PayloadFromObject(PayloadObject(p)) == Some(p.(queryType := Some(p.queryType.GetOr(Sql))))
  {
    var obj := PayloadObject(p);
    var tail: seq<(string, JsonValue)> := if p.params.Some? then [("params", JsonMap(p.params.value))] else [];
    var c := [("query_type", JsonQueryType(p.queryType.GetOr(Sql)))] + tail;
    var b := [("sql_query", JsonString(p.query))] + c;
    assert obj == [("database", JsonString(p.database))] + b;
    assert b[1..] == c && c[1..] == tail;
    var params := if p.params.Some? then Some(JsonMap(p.params.value)) else None;
    assert Member(tail, "params") == params;
    assert Member(c, "params") == params;
    assert Member(b, "params") == params;
    assert Member(obj, "params") == params;
    assert Member(obj, "database") == Some(JsonString(p.database));
    assert Member(b, "sql_query") == Some(JsonString(p.query));
    assert Member(obj, "sql_query") == Some(JsonString(p.query));
    assert Member(c, "query_type") == Some(JsonQueryType(p.queryType.GetOr(Sql)));
    assert Member(b, "query_type") == Some(JsonQueryType(p.queryType.GetOr(Sql)));
    assert Member(obj, "query_type") == Some(JsonQueryType(p.queryType.GetOr(Sql)));
  }
}
