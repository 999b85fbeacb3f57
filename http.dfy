/** The values exchanged with the worker: parsed JSON, requests and
    responses. JSON text (`JSON.stringify` / `JSON.parse`) is not modelled:
    a body is either a JSON value or text that did not parse. */
module Http {
  import opened Options
  import Numbers

  datatype Json =
    | JNull
    | JBool(b: bool)
    | JNum(n: int)
    | JStr(s: string)
    | JArr(items: seq<Json>)
    | JObj(fields: map<string, Json>)

  /** JavaScript truthiness of a JSON value. */
  predicate Truthy(v: Json) {
    match v
    case JNull => false
    case JBool(b) => b
    case JNum(n) => n != 0
    case JStr(s) => s != ""
    case JArr(_) => true
    case JObj(_) => true
  }

  /** `String(v)` for a JSON value: arrays join their elements with `,`
      (null elements as empty text), objects give `[object Object]`. */
  function ToText(v: Json): string
    decreases v
  {
    match v
    case JNull => "null"
    case JBool(b) => if b then "true" else "false"
    case JNum(n) => if n < 0 then "-" + Numbers.NatToString(-n) else Numbers.NatToString(n)
    case JStr(s) => s
    case JArr(items) => JoinTexts(items, v)
    case JObj(_) => "[object Object]"
  }

  function JoinTexts(items: seq<Json>, whole: Json): string
    requires forall i :: 0 <= i < |items| ==> items[i] < whole
    decreases whole, |items|
  {
    if items == [] then ""
    else
      var first := if items[0].JNull? then "" else ToText(items[0]);
      if |items| == 1 then first else first + "," + JoinTexts(items[1..], whole)
  }

  /** The property `key` of an object value; anything else has none. */
  function Field(v: Json, key: string): Option<Json> {
    if v.JObj? && key in v.fields then Some(v.fields[key]) else None
  }

  datatype Body = NoBody | Text(text: string) | JsonBody(json: Json)

  datatype Response = Response(status: int, body: Body)

  /** A request as the handlers see it; `verb` is its method. Header names
      are lower case, as the runtime's `Headers` object compares them
      case-insensitively; values are kept as sent. `body` is `None` when the
      body is not valid JSON. */
  datatype Request = Request(verb: string, path: string, headers: map<string, string>, body: Option<Json>) {
    function Header(name: string): Option<string> {
      if name in headers then Some(headers[name]) else None
    }
  }

  /** `c.json({ error: message }, status)`. */
  function ErrorResponse(status: int, message: string): Response {
    Response(status, JsonBody(JObj(map["error" := JStr(message)])))
  }

  /** `c.json(value)` with its default status 200. */
  function JsonResponse(value: Json): Response {
    Response(200, JsonBody(value))
  }
}
