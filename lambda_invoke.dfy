/**
 * The synchronous invocation of a Lambda function (lambda.go), reduced to the
 * outcome the consumer sees.
 */
module LambdaInvoke {
  import opened Wrappers
  import opened Payload

  /** What the Lambda service answers to one Invoke request. */
  datatype InvokeReply =
    | TransportError
    | Reply(functionError: Option<string>, payload: string)

  /** The two ways InvokeSync reports failure. */
  datatype InvokeError =
    | InvokeFailed
    | FunctionFailed(kind: string, payload: string)

  /** The integrity function's verdict, as json.Unmarshal fills the `LambdaResponse` struct. */
  datatype LambdaResponse = LambdaResponse(statusCode: int, body: Json)

  /**
   * InvokeSync's three-way outcome: a transport error fails, a reply carrying a
   * function error fails even though the transport succeeded, and only a clean
   * reply yields its payload.
   */
  function InvokeSync(reply: InvokeReply): (r: Result<string, InvokeError>)
    ensures r.Success? <==> reply.Reply? && reply.functionError.None?
    ensures r.Success? ==> r.value == reply.payload
    ensures reply.Reply? && reply.functionError.Some? ==>
              r == Failure(FunctionFailed(reply.functionError.value, reply.payload))
  {
    match reply
    case TransportError => Failure(InvokeFailed)
    case Reply(fe, payload) =>
      if fe.Some? then Failure(FunctionFailed(fe.value, payload)) else Success(payload)
  }
}
