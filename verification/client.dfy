/**
 * The rule tables of the two clients (`src/client/napi_rs/client.rs` and
 * `src/client/native/client.rs`, which agree on everything modelled here):
 * which serializer a client uses, which stream kind a query returns, the body
 * a write sends and how the HTTP outcome of a write is classified. The
 * connection, the request itself and the write path are not modelled; the
 * server's answer is a parameter.
 */
module Client {
  import opened Wrappers
  import opened Text

  /** `Serializer`: how query results are handed to the host. */
  datatype Serializer = Unsafe | Library | Raw

  /** `Serializer::default()`. */
  const DefaultSerializer: Serializer := Library

  /**
   * The serializer a client is built with. A missing choice becomes `Unsafe`,
   * not the enum's own default.
   */
  function ChosenSerializer(choice: Option<Serializer>): (s: Serializer)
    ensures choice.Some? ==> s == choice.value
    ensures choice.None? ==> s == Unsafe && s != DefaultSerializer
  {
    choice.GetOr(Unsafe)
  }

  /** The three stream kinds of a query's `Either3` result. */
  datatype StreamKind = A | B | C

  /** `query`: library rows on `A`, JSON objects on `B`, IPC buffers on `C`. */
  function StreamOf(s: Serializer): StreamKind {
    match s
    case Library => A
    case Unsafe => B
    case Raw => C
  }

  /** The serializer a stream kind comes from. */
  function SerializerOf(k: StreamKind): Serializer {
    match k
    case A => Library
    case B => Unsafe
    case C => Raw
  }

  /** Each serializer has its own stream kind, and every kind is reached. */
  lemma DispatchBijective(s: Serializer, k: StreamKind)
    ensures SerializerOf(StreamOf(s)) == s
    ensures StreamOf(SerializerOf(k)) == k
  {
  }

  /** A client built without a choice returns JSON objects. */
  lemma DefaultClientStream()
    ensures StreamOf(ChosenSerializer(None)) == B
    ensures StreamOf(DefaultSerializer) == A
  {
  }

  /** The error a write reports: a reason text or a bare status. */
  datatype WriteError = Reason(reason: string) | Cancelled

  /** What came back from the server: a status, or a transport error that may carry one. */
  datatype Response = Answered(status: nat) | TransportError(errorStatus: Option<nat>)

  const Ok200: nat := 200
  const NoContent204: nat := 204
  const Unauthorized401: nat := 401

  /** Whether a response carries the unauthorized status, answered or not. */
  predicate IsUnauthorized(r: Response) {
    match r
    case Answered(s) => s == Unauthorized401
    case TransportError(s) => s == Some(Unauthorized401)
  }

  /**
   * `write_inner`'s classification: 200 and 204 succeed; 401 reads
   * "Unauthorized" whether answered or carried by a transport error; any other
   * answer reads "Unknown" and any other transport error is `Cancelled`.
   */
  function Classify(r: Response): (out: Result<(), WriteError>)
    ensures out.Success? <==> r.Answered? && (r.status == Ok200 || r.status == NoContent204)
    ensures out == Failure(Reason("Unauthorized")) <==> IsUnauthorized(r)
    ensures out == Failure(Reason("Unknown")) <==> r.Answered? && r.status !in {Ok200, NoContent204, Unauthorized401}
    ensures out == Failure(Cancelled) <==> r.TransportError? && !IsUnauthorized(r)
  {
    match r
    case TransportError(s) =>
      if s == Some(Unauthorized401) then Failure(Reason("Unauthorized")) else Failure(Cancelled)
    case Answered(s) =>
      if s == Ok200 then Success(())
      else if s == NoContent204 then Success(())
      else if s == Unauthorized401 then Failure(Reason("Unauthorized"))
      else Failure(Reason("Unknown"))
  }

  /** Lines that do not contain the newline separator themselves. */
  predicate SingleLines(lines: seq<string>) {
    forall i :: 0 <= i < |lines| ==> '\n' !in lines[i]
  }

  /** The write body: the lines joined by newlines. */
  function WriteBody(lines: seq<string>): string {
    Join(lines, '\n')
  }

  /**
   * A write: the body goes to the server (`send`, the network) and its answer
   * is classified.
   */
  function Write(lines: seq<string>, send: string -> Response): (r: (string, Result<(), WriteError>))
    ensures |lines| > 0 && SingleLines(lines) ==> Split(r.0, '\n') == lines
    ensures |lines| == 0 ==> r.0 == ""
    ensures r.1 == Classify(send(r.0))
  {
    var body := WriteBody(lines);
    assert |lines| > 0 && SingleLines(lines) ==> Split(body, '\n') == lines by {
      if |lines| > 0 && SingleLines(lines) {
        SplitJoin(lines, '\n');
      }
    }
    (body, Classify(send(body)))
  }
}
