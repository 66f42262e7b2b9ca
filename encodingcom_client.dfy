/**
 * The wire helpers of the Encoding.com client (package `encodingcom`): the
 * booleans the API wants as quoted "yes"/"no" and "1"/"0", and the rule
 * that turns a response carrying an `errors` block into an `APIError`
 * before anything else is decoded.
 */
module EncodingCom {
  import opened Wrappers

  /**
   * `boolToBytes`: `t` or `f`, in double quotes. The bytes of the JSON text
   * are modelled as its characters.
   */
  function BoolToBytes(b: bool, t: string, f: string): (r: string)
    ensures |r| >= 2 && r[0] == '"' && r[|r| - 1] == '"'
    ensures r[1..|r| - 1] == if b then t else f
  {
    if b then "\"" + t + "\"" else "\"" + f + "\""
  }

  /** With two different texts, the quoted text tells which boolean was encoded. */
  lemma BoolToBytesInjective(a: bool, b: bool, t: string, f: string)
    requires t != f
    ensures BoolToBytes(a, t, f) == BoolToBytes(b, t, f) <==> a == b
  {
    if BoolToBytes(a, t, f) == BoolToBytes(b, t, f) {
      var ra, rb := BoolToBytes(a, t, f), BoolToBytes(b, t, f);
      assert ra[1..|ra| - 1] == rb[1..|rb| - 1];
    }
  }

  /** `YesNoBoolean.MarshalJSON`. */
  function YesNoMarshalJSON(b: bool): (r: string)
    ensures r == if b then "\"yes\"" else "\"no\""
  {
    BoolToBytes(b, "yes", "no")
  }

  /** `ZeroOneBoolean.MarshalJSON`. */
  function ZeroOneMarshalJSON(b: bool): (r: string)
    ensures r == if b then "\"1\"" else "\"0\""
  {
    BoolToBytes(b, "1", "0")
  }

  /** Both encodings are one-to-one, so a decoder can recover the boolean. */
  lemma MarshalJSONInjective(a: bool, b: bool)
    ensures YesNoMarshalJSON(a) == YesNoMarshalJSON(b) <==> a == b
    ensures ZeroOneMarshalJSON(a) == ZeroOneMarshalJSON(b) <==> a == b
  {
    BoolToBytesInjective(a, b, "yes", "no");
    BoolToBytesInjective(a, b, "1", "0");
  }

  /** The `errors` block of a response: the list under its `error` key. */
  datatype Errors = Errors(error: seq<string>)

  /** `errorResponse`: the part of a response the client looks at before decoding it. */
  datatype ErrorResponse = ErrorResponse(message: string, errors: Option<Errors>)

  /** `APIError`: the message and the list of errors of a response that reports errors. */
  datatype APIError = APIError(message: string, errors: seq<string>)

  /**
   * The response read as a map from key to `errorResponse`; a key that holds
   * JSON `null` maps to `None`, as Go stores a nil pointer for it.
   */
  type Envelope = map<string, Option<ErrorResponse>>

  /** How a call to `do` ends once the response body has been read. */
  datatype Outcome<T> =
    | DecodeFailed(cause: string) // the JSON decoder's error, for the envelope or for `out`
    | NilResponse                 // no usable "response" key: Go dereferences a nil pointer and panics
    | Failed(apiError: APIError)  // the response reports errors
    | Decoded(out: T)             // the response decoded into `out`

  /** The "response" entry of the envelope holds an object. */
  predicate HasResponse(env: Envelope)
  {
    "response" in env && env["response"].Some?
  }

  /**
   * The decision at the end of `Client.do`. `envelope` is the response body
   * decoded as an `Envelope`, and `out` is decoding the same body into the
   * caller's value; both decoders are parameters.
   */
  function Do<T>(envelope: Result<Envelope, string>, out: Result<T, string>): (r: Outcome<T>)
    ensures envelope.Failure? ==> r == DecodeFailed(envelope.error)
    ensures envelope.Success? ==> (r.NilResponse? <==> !HasResponse(envelope.value))
    ensures r.Failed? <==> envelope.Success? && HasResponse(envelope.value)
                           && envelope.value["response"].value.errors.Some?
    ensures r.Failed? ==> var resp := envelope.value["response"].value;
      r.apiError == APIError(resp.message, resp.errors.value.error)
    ensures r.Decoded? ==> out == Success(r.out)
    ensures envelope.Success? && HasResponse(envelope.value) && envelope.value["response"].value.errors.None? ==>
      r == match out { case Success(v) => Decoded(v) case Failure(e) => DecodeFailed(e) }
  {
    match envelope
    case Failure(e) => DecodeFailed(e)
    case Success(env) =>
      if "response" !in env || env["response"].None? then NilResponse
      else
        var errResp := env["response"].value;
        if errResp.errors.Some? then Failed(APIError(errResp.message, errResp.errors.value.error))
        else
          match out
          case Success(v) => Decoded(v)
          case Failure(e) => DecodeFailed(e)
  }

  /** A response that reports errors never reaches the caller's value, whatever that would decode to. */
  lemma ErrorsShortCircuit<T>(env: Envelope, out1: Result<T, string>, out2: Result<T, string>)
    requires HasResponse(env) && env["response"].value.errors.Some?
    ensures Do(Success(env), out1) == Do(Success(env), out2)
    ensures Do(Success(env), out1).Failed?
  {
  }

  /** The response of a call with a wrong user id or key: an `APIError` with an empty message and the one error. */
  lemma WrongKeyIsAPIError<T>(out: Result<T, string>)
    ensures var env := map["response" := Some(ErrorResponse("", Some(Errors(["Wrong user id or key!"]))))];
      Do(Success(env), out) == Failed(APIError("", ["Wrong user id or key!"]))
  {
  }
}
