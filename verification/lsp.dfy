/** The protocol values the server exchanges with the editor: the message envelopes of
    `lsp_server` and the hover types of `lsp_types`. Only their shape is modelled;
    JSON (de)serialisation is a parameter of the operations that need it. */
module Lsp {
  import opened Wrappers

  /** A JSON value (`serde_json::Value`). */
  datatype Value =
    | Null
    | Bool(b: bool)
    | Number(n: int)
    | Str(s: string)
    | Array(items: seq<Value>)
    | Object(fields: seq<(string, Value)>)

  /** A request's correlation identifier: a number or a string. */
  datatype RequestId = IntId(n: int) | StrId(s: string)

  datatype Notification = Notification(methodName: string, params: Value)

  datatype Request = Request(id: RequestId, methodName: string, params: Value)

  datatype ResponseError = ResponseError(code: int, message: string, data: Option<Value>)

  datatype Response = Response(id: RequestId, result: Option<Value>, error: Option<ResponseError>)

  /** Why `extract` refused a message: a different method, or params that do not decode. */
  datatype ExtractError<T> = MethodMismatch(message: T) | JsonError(methodName: string)

  /** `Notification::extract(method)`: the method name must be `methodName` and the params
      must decode; `decode` stands for `serde_json::from_value`. */
  function ExtractNotification<P>(not: Notification, methodName: string, decode: Value -> Option<P>)
    : (r: Result<P, ExtractError<Notification>>)
    ensures r.Success? <==> not.methodName == methodName && decode(not.params).Some?
    ensures r.Success? ==> r.value == decode(not.params).value
  {
    if not.methodName != methodName then Failure(MethodMismatch(not))
    else match decode(not.params)
      case Some(params) => Success(params)
      case None => Failure(JsonError(not.methodName))
  }

  /** `Request::extract(method)`: as for notifications, and the id is handed back with the params. */
  function ExtractRequest<P>(req: Request, methodName: string, decode: Value -> Option<P>)
    : (r: Result<(RequestId, P), ExtractError<Request>>)
    ensures r.Success? <==> req.methodName == methodName && decode(req.params).Some?
    ensures r.Success? ==> r.value == (req.id, decode(req.params).value)
  {
    if req.methodName != methodName then Failure(MethodMismatch(req))
    else match decode(req.params)
      case Some(params) => Success((req.id, params))
      case None => Failure(JsonError(req.methodName))
  }

  datatype Position = Position(line: nat, character: nat)

  datatype Range = Range(start: Position, end: Position)

  /** The part of `HoverParams` the server reads: the document URI's path and the
      zero-indexed cursor position. */
  datatype HoverParams = HoverParams(path: string, position: Position)

  datatype MarkupKind = PlainText | Markdown

  datatype MarkupContent = MarkupContent(kind: MarkupKind, value: string)

  datatype HoverContents =
    | Scalar(text: string)
    | ArrayContents(texts: seq<string>)
    | Markup(content: MarkupContent)

  datatype Hover = Hover(contents: HoverContents, range: Option<Range>)
}
