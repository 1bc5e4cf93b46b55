/** Unwrapping Huobi's response envelopes (Huobi.Net/HuobiClient.cs,
    `SendHuobiV2Request`, `SendHuobiTimestampRequest`, `SendHuobiRequest`,
    `TryParseErrorAsync`, `ParseErrorResponse`). The HTTP call itself is an
    input: it either failed with an error or delivered a body, which may
    have deserialised to null. A null body leaves the result's data at its
    type's default value, written `None` here. */
module Envelopes {
  import opened Results

  /** What the underlying call produced. */
  datatype Call<E> = Failed(error: Error) | Received(body: Option<E>)

  /** `HuobiApiResponseV2`: a status code, a message and the payload. */
  datatype EnvelopeV2<T> = EnvelopeV2(code: int, message: string, data: Option<T>)

  /** `HuobiBasicResponse`: an optional error code and message, the
      payload and the server timestamp. */
  datatype BasicEnvelope<T> = BasicEnvelope(errCode: Option<string>, errMessage: Option<string>, data: Option<T>, timestamp: int)

  /** The payload together with the envelope's timestamp. */
  datatype Stamped<T> = Stamped(data: Option<T>, timestamp: int)

  /** The success code of a version-2 envelope. */
  const SuccessCode: int := 200

  /** `SendHuobiV2Request`. A body that deserialised to null yields a
      result with no error and `default(T)` as its data; `Ok(None)` stands
      for that default, which is null for an object payload and zero for a
      number. */
  function UnwrapV2<T>(call: Call<EnvelopeV2<T>>): (r: Result<Option<T>>)
    ensures r.Err? <==> call.Failed? || (call.body.Some? && call.body.value.code != SuccessCode)
    ensures call.Failed? ==> r == Err(call.error)
    ensures call.Received? && call.body.Some? && call.body.value.code != SuccessCode ==>
      r == Err(ServerCodeError(call.body.value.code, call.body.value.message))
    ensures r.Ok? ==> r.value == (if call.body.Some? then call.body.value.data else None)
  {
    match call
    case Failed(e) => Err(e)
    case Received(None) => Ok(None)
    case Received(Some(env)) =>
      if env.code != SuccessCode then Err(ServerCodeError(env.code, env.message))
      else Ok(env.data)
  }

  /** `SendHuobiRequest`: an envelope carrying an error code becomes a
      server error with that code and message. As for `UnwrapV2`, a null
      body is `Ok(None)`, the payload type's default value. */
  function Unwrap<T>(call: Call<BasicEnvelope<T>>): (r: Result<Option<T>>)
    ensures r.Err? <==> call.Failed? || (call.body.Some? && call.body.value.errCode.Some?)
    ensures call.Failed? ==> r == Err(call.error)
    ensures call.Received? && call.body.Some? && call.body.value.errCode.Some? ==>
      r == Err(ServerError(call.body.value.errCode.value, call.body.value.errMessage))
    ensures r.Ok? ==> r.value == (if call.body.Some? then call.body.value.data else None)
  {
    match call
    case Failed(e) => Err(e)
    case Received(None) => Ok(None)
    case Received(Some(env)) =>
      if env.errCode.Some? then Err(ServerError(env.errCode.value, env.errMessage))
      else Ok(env.data)
  }

  /** `text` reads as `left`, then `separator`, then `right`. */
  predicate Joined(text: string, left: string, separator: string, right: string)
  {
    && |text| == |left| + |separator| + |right|
    && text[..|left|] == left
    && text[|left|..|left| + |separator|] == separator
    && text[|left| + |separator|..] == right
  }

  /** C# string interpolation of a possibly null string. */
  function Text(s: Option<string>): string
  {
    s.GetOr("")
  }

  /** `SendHuobiTimestampRequest`: as `Unwrap`, but the payload keeps the
      envelope's timestamp and a server error is the text
      "<code>-<message>". A null body yields no error and the default
      pair, `default(T)` with `DateTime.MinValue`, which `Ok(None)` stands
      for. */
  function UnwrapStamped<T>(call: Call<BasicEnvelope<T>>): (r: Result<Option<Stamped<T>>>)
    ensures r.Err? <==> call.Failed? || (call.body.Some? && call.body.value.errCode.Some?)
    ensures call.Failed? ==> r == Err(call.error)
    ensures call.Received? && call.body.Some? && call.body.value.errCode.Some? ==>
      && r.Err? && r.error.ServerMessageError?
      && Joined(r.error.detail, call.body.value.errCode.value, "-", Text(call.body.value.errMessage))
    ensures r.Ok? ==> (r.value.Some? <==> call.body.Some?)
    ensures r.Ok? && call.body.Some? ==>
      r.value.value == Stamped(call.body.value.data, call.body.value.timestamp)
  {
    match call
    case Failed(e) => Err(e)
    case Received(None) => Ok(None)
    case Received(Some(env)) =>
      if env.errCode.Some? then
        Err(ServerMessageError(env.errCode.value + "-" + Text(env.errMessage)))
      else Ok(Some(Stamped(env.data, env.timestamp)))
  }

  /** The two unwrappers of the basic envelope agree: they fail on the
      same calls and deliver the same payload. */
  lemma UnwrapAgreesWithStamped<T>(call: Call<BasicEnvelope<T>>)
    ensures Unwrap(call).Ok? <==> UnwrapStamped(call).Ok?
    ensures Unwrap(call).Ok? && call.body.Some? ==>
      UnwrapStamped(call).value.value.data == Unwrap(call).value
  {
  }

  /** Building an envelope around a payload the way a successful server
      answer does, and unwrapping it, gives the payload back unchanged. */
  lemma UnwrapV2RoundTrip<T>(data: Option<T>, message: string)
    ensures UnwrapV2(Received(Some(EnvelopeV2(SuccessCode, message, data)))) == Ok(data)
  {
  }

  lemma UnwrapRoundTrip<T>(data: Option<T>, message: Option<string>, timestamp: int)
    ensures Unwrap(Received(Some(BasicEnvelope(None, message, data, timestamp)))) == Ok(data)
    ensures UnwrapStamped(Received(Some(BasicEnvelope(None, message, data, timestamp))))
      == Ok(Some(Stamped(data, timestamp)))
  {
  }

  // ---------------------------------------------------------------------
  // Error bodies
  // ---------------------------------------------------------------------

  /** The `err-code` and `err-msg` fields of a JSON body, with the body's
      own text for when neither can be used. */
  datatype ErrorBody = ErrorBody(errCode: Option<string>, errMsg: Option<string>, raw: string)

  /** `TryParseErrorAsync`: a body with neither field is not an error;
      otherwise the error text is "<code>, <message>". */
  function TryParseError(body: ErrorBody): (r: Option<Error>)
    ensures r.None? <==> body.errCode.None? && body.errMsg.None?
    ensures r.Some? ==>
      && r.value.ServerMessageError?
      && Joined(r.value.detail, Text(body.errCode), ", ", Text(body.errMsg))
  {
    if body.errCode.None? && body.errMsg.None? then None
    else Some(ServerMessageError(Text(body.errCode) + ", " + Text(body.errMsg)))
  }

  /** `ParseErrorResponse`: with both fields present the error text is
      "<code>, <message>"; otherwise it is the raw body. */
  function ParseErrorResponse(body: ErrorBody): (r: Error)
    ensures r.ServerMessageError?
    ensures body.errCode.None? || body.errMsg.None? ==> r.detail == body.raw
    ensures body.errCode.Some? && body.errMsg.Some? ==>
      Joined(r.detail, body.errCode.value, ", ", body.errMsg.value)
  {
    if body.errCode.None? || body.errMsg.None? then ServerMessageError(body.raw)
    else ServerMessageError(body.errCode.value + ", " + body.errMsg.value)
  }

  /** When both fields are present the two parsers produce the same error. */
  lemma ErrorParsersAgree(body: ErrorBody)
    requires body.errCode.Some? && body.errMsg.Some?
    ensures TryParseError(body) == Some(ParseErrorResponse(body))
  {
  }
}
