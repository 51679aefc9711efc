/**
 * The values the two AI routes exchange: already-parsed JSON, what a route
 * handler catches, the model call's reply, and the response it sends.
 */
module Json {
  import opened Wrappers

  /** A parsed JSON value; numbers are kept as integers, which the routes never inspect. */
  datatype Json =
    | JNull
    | JBool(b: bool)
    | JNumber(n: int)
    | JString(s: string)
    | JArray(items: seq<Json>)
    | JObject(fields: map<string, Json>)

  /**
   * What a handler's `catch` receives: a schema rejection (`ZodError`), a
   * `SyntaxError` from `JSON.parse` or `req.json()`, any other `Error` with its
   * message, or a thrown value that is not an `Error` at all.
   */
  datatype Raised = SchemaError | SyntaxError | ErrorObject(message: string) | NonErrorValue

  /** Text that either arrived as valid JSON or made the parser throw. */
  datatype JsonInput = Parsed(value: Json) | Unparsable

  /** The completion call: it throws, or its first choice carries content (possibly none). */
  datatype ModelReply = CallThrew(raised: Raised) | Content(content: Option<JsonInput>)

  /**
   * The `error` text of a 400 response: a message spelled out by this
   * application or the thrower, or the message a schema or parser error
   * carries, whose wording belongs to that library.
   */
  datatype ErrorText = Message(text: string) | LibraryMessage(raised: Raised)

  /** `NextResponse.json(body)` with status 200, or `{ error }` with status 400. */
  datatype Response<+T> = Ok200(body: T) | Bad400(error: ErrorText)

  /** `e instanceof Error ? e.message : fallback`. */
  function ErrorMessage(raised: Raised, fallback: string): (t: ErrorText)
    ensures raised.NonErrorValue? ==> t == Message(fallback)
    ensures raised.ErrorObject? ==> t == Message(raised.message)
    ensures raised.SchemaError? || raised.SyntaxError? ==> t == LibraryMessage(raised)
  {
    match raised
    case ErrorObject(m) => Message(m)
    case NonErrorValue => Message(fallback)
    case _ => LibraryMessage(raised)
  }

  /** `completion.choices[0]?.message?.content ?? "{}"` after `JSON.parse`. */
  function ContentJson(content: Option<JsonInput>): (r: Result<Json, Raised>)
    ensures content.None? ==> r == Success(JObject(map[]))
    ensures r.Failure? <==> content == Some(Unparsable)
  {
    match content
    case None => Success(JObject(map[]))
    case Some(Parsed(j)) => Success(j)
    case Some(Unparsable) => Failure(SyntaxError)
  }

  /** The string under `key` in an object, if there is one (`z.string()`). */
  function StringField(j: Json, key: string): (r: Option<string>)
    ensures r.Some? <==> j.JObject? && key in j.fields && j.fields[key].JString?
    ensures r.Some? ==> j.fields[key] == JString(r.value)
  {
    if j.JObject? && key in j.fields && j.fields[key].JString? then Some(j.fields[key].s) else None
  }

  /** The items of the array under `key` in an object, if there is one (`z.array(...)`). */
  function ArrayField(j: Json, key: string): (r: Option<seq<Json>>)
    ensures r.Some? <==> j.JObject? && key in j.fields && j.fields[key].JArray?
    ensures r.Some? ==> j.fields[key] == JArray(r.value)
  {
    if j.JObject? && key in j.fields && j.fields[key].JArray? then Some(j.fields[key].items) else None
  }

  /** The string or null under `key` (`z.string().nullable()`); a missing key is not null. */
  function NullableStringField(j: Json, key: string): (r: Option<Option<string>>)
    ensures r == Some(None) <==> j.JObject? && key in j.fields && j.fields[key] == JNull
    ensures r.Some? && r.value.Some? <==> j.JObject? && key in j.fields && j.fields[key].JString?
    ensures r.Some? && r.value.Some? ==> j.fields[key] == JString(r.value.value)
  {
    if j.JObject? && key in j.fields && j.fields[key] == JNull then Some(None)
    else if j.JObject? && key in j.fields && j.fields[key].JString? then Some(Some(j.fields[key].s))
    else None
  }

  /** A string value, or null. */
  function NullableString(s: Option<string>): (j: Json)
    ensures s.None? <==> j == JNull
    ensures s.Some? ==> j == JString(s.value)
  {
    if s.Some? then JString(s.value) else JNull
  }
}
