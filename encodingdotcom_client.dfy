/**
 * The wire helpers of the second Encoding.com client (package
 * `encodingdotcom`), which repeats those of `encodingcom` under its own
 * names: the quoted booleans and the rule that turns a response carrying an
 * `errors` block into an `APIError`. The two packages decide alike.
 */
module EncodingDotCom {
  import opened Wrappers
  import EncodingCom

  /** `boolToByte`: `t` or `f`, in double quotes. */
  function BoolToByte(b: bool, t: string, f: string): (r: string)
    ensures |r| >= 2 && r[0] == '"' && r[|r| - 1] == '"'
    ensures r[1..|r| - 1] == if b then t else f
  {
    if b then "\"" + t + "\"" else "\"" + f + "\""
  }

  /** `YesNoBoolean.MarshalJSON`. */
  function YesNoMarshalJSON(b: bool): (r: string)
    ensures r == if b then "\"yes\"" else "\"no\""
  {
    BoolToByte(b, "yes", "no")
  }

  /** `ZeroOneBoolean.MarshalJSON`. */
  function ZeroOneMarshalJSON(b: bool): (r: string)
    ensures r == if b then "\"1\"" else "\"0\""
  {
    BoolToByte(b, "1", "0")
  }

  /** `Errors`: the list under the `error` key of a response's `errors` block. */
  datatype Errors = Errors(error: seq<string>)

  /** `ErrorResponse`: the part of a response the client looks at before decoding it. */
  datatype ErrorResponse = ErrorResponse(message: string, errors: Option<Errors>)

  /** `APIError`: the message and the list of errors of a response that reports errors. */
  datatype APIError = APIError(message: string, errors: seq<string>)

  /** The response read as a map from key to `ErrorResponse`; `None` is a JSON `null`. */
  type Envelope = map<string, Option<ErrorResponse>>

  /** How a call to `do` ends once the response body has been read. */
  datatype Outcome<T> =
    | DecodeFailed(cause: string) // the JSON decoder's error, for the envelope or for `out`
    | NilResponse                 // no usable "response" key: Go dereferences a nil pointer and panics
    | Failed(apiError: APIError)  // the response reports errors
    | Decoded(out: T)             // the response decoded into `out`

  /** The decision at the end of `Client.do`, with both JSON decoders' results as parameters. */
  function Do<T>(envelope: Result<Envelope, string>, out: Result<T, string>): (r: Outcome<T>)
    ensures envelope.Failure? ==> r == DecodeFailed(envelope.error)
    ensures r.NilResponse? <==> envelope.Success? && !("response" in envelope.value && envelope.value["response"].Some?)
    ensures r.Failed? <==> envelope.Success? && "response" in envelope.value
                           && envelope.value["response"].Some? && envelope.value["response"].value.errors.Some?
    ensures r.Failed? ==> var resp := envelope.value["response"].value;
      r.apiError == APIError(resp.message, resp.errors.value.error)
    ensures r.Decoded? ==> out == Success(r.out)
    ensures envelope.Success? && "response" in envelope.value && envelope.value["response"].Some?
            && envelope.value["response"].value.errors.None? ==>
      r == match out { case Success(v) => Decoded(v) case Failure(e) => DecodeFailed(e) }
  {
    match envelope
    case Failure(e) => DecodeFailed(e)
    case Success(env) =>
      if "response" !in env || env["response"].None? then NilResponse
      else
        var errResp := env["response"].value;
        if errResp.errors.Some? then Failed(APIError(errResp.message, errResp.errors.value.error))
        else
          match out
          case Success(v) => Decoded(v)
          case Failure(e) => DecodeFailed(e)
  }

  // The correspondence between the two packages' types.

  function ToResponse(r: ErrorResponse): EncodingCom.ErrorResponse
  {
    EncodingCom.ErrorResponse(r.message, match r.errors
      case None => None
      case Some(es) => Some(EncodingCom.Errors(es.error)))
  }

  function ToEntry(e: Option<ErrorResponse>): Option<EncodingCom.ErrorResponse>
  {
    match e
    case None => None
    case Some(r) => Some(ToResponse(r))
  }

  function ToEnvelope(env: Envelope): EncodingCom.Envelope
  {
    map k | k in env :: ToEntry(env[k])
  }

  function ToOutcome<T>(o: Outcome<T>): EncodingCom.Outcome<T>
  {
    match o
    case DecodeFailed(c) => EncodingCom.DecodeFailed(c)
    case NilResponse => EncodingCom.NilResponse
    case Failed(a) => EncodingCom.Failed(EncodingCom.APIError(a.message, a.errors))
    case Decoded(v) => EncodingCom.Decoded(v)
  }

  /** The boolean encoders of the two packages write the same bytes. */
  lemma BoolEncodersAgree(b: bool, t: string, f: string)
    ensures BoolToByte(b, t, f) == EncodingCom.BoolToBytes(b, t, f)
    ensures YesNoMarshalJSON(b) == EncodingCom.YesNoMarshalJSON(b)
    ensures ZeroOneMarshalJSON(b) == EncodingCom.ZeroOneMarshalJSON(b)
  {
  }

  /** On the same response, the two packages' `do` end the same way. */
  lemma DoAgrees<T>(envelope: Result<Envelope, string>, out: Result<T, string>)
    ensures ToOutcome(Do(envelope, out)) == EncodingCom.Do(
      match envelope
      case Success(env) => Success(ToEnvelope(env))
      case Failure(e) => Failure(e), out)
  {
    if envelope.Success? {
      var env := envelope.value;
      assert ("response" in ToEnvelope(env)) == ("response" in env);
      if "response" in env {
        assert ToEnvelope(env)["response"] == ToEntry(env["response"]);
      }
    }
  }
}
