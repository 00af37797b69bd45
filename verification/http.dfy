/** JSON values and HTTP responses as the server routes produce them. Numbers
    are integers; a response body is either a JSON value or, when a failure is
    answered by the framework's default error handler or a value that JSON
    cannot encode is sent, something that is not JSON (`None`). */
module Http {
  import opened Seqs

  datatype Json =
    | JNull
    | JBool(b: bool)
    | JNum(n: int)
    | JStr(s: string)
    | JArr(items: seq<Json>)
    | JObj(fields: map<string, Json>)

  /** JavaScript truthiness of a decoded JSON value. */
  predicate Truthy(j: Json)
  {
    match j
    case JNull => false
    case JBool(b) => b
    case JNum(n) => n != 0
    case JStr(s) => s != ""
    case JArr(_) => true
    case JObj(_) => true
  }

  datatype Response = Response(status: int, body: Option<Json>)

  /** `{ message }`. */
  function Message(text: string): (j: Json)
    ensures j.JObj? && j.fields.Keys == {"message"} && j.fields["message"] == JStr(text)
  {
    JObj(map["message" := JStr(text)])
  }

  /** `res.status(status).json({ message: text })`. */
  function Reply(status: int, text: string): (r: Response)
    ensures r.status == status && r.body == Some(Message(text))
  {
    Response(status, Some(Message(text)))
  }

  /** `{ message, error }`, the shape of every caught failure. */
  function Failure(text: string, reason: string): (j: Json)
    ensures j.JObj? && j.fields.Keys == {"message", "error"}
    ensures j.fields["message"] == JStr(text) && j.fields["error"] == JStr(reason)
  {
    JObj(map["message" := JStr(text), "error" := JStr(reason)])
  }

  /** The framework's default error handler: status 500 and a page that is not JSON. */
  const ServerError: Response := Response(500, None)
}
